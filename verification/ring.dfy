/**
 Intrusive doubly linked rings. A ring is a cyclic sequence of nodes; a list is a ring
 with a head, whose contents are the other nodes in order. Every operation on the
 pointers is the corresponding operation on the sequence.
 */
module Rings {
  import opened Common

  class ListHead {
    var next: ListHead?
    var prev: ListHead?

    /** INIT_LIST_HEAD */
    constructor ()
      ensures Cyclic([this])
    {
      next, prev := this, this;
    }
  }

  function After(c: seq<ListHead>, i: nat): ListHead
    requires i < |c|
  {
    if i + 1 < |c| then c[i + 1] else c[0]
  }

  /** Following `next` from any node of `c` goes round `c`, and `prev` goes back. */
  ghost predicate Cyclic(c: seq<ListHead>)
    reads c
  {
    && c != []
    && (forall i, j :: 0 <= i < j < |c| ==> c[i] != c[j])
    && (forall i :: 0 <= i < |c| ==> c[i].next == After(c, i) && After(c, i).prev == c[i])
  }

  /** The list headed by `head` holds exactly `s`, in order. */
  ghost predicate List(head: ListHead, s: seq<ListHead>)
    reads [head] + s
  {
    Cyclic([head] + s)
  }

  /** The neighbours of the head. */
  lemma Ends(head: ListHead, s: seq<ListHead>)
    requires List(head, s)
    ensures head.next == (if s == [] then head else s[0])
    ensures head.prev == (if s == [] then head else s[|s| - 1])
    ensures head !in s
  {
    var c := [head] + s;
    assert c[0].next == After(c, 0) && After(c, |s|) == head && head.prev == c[|s|];
    assert forall i :: 0 <= i < |s| ==> c[i + 1] == s[i];
  }

  /** The neighbours of an entry. */
  lemma Neighbours(head: ListHead, s: seq<ListHead>, j: nat)
    requires List(head, s) && j < |s|
    ensures s[j].next == (if j + 1 < |s| then s[j + 1] else head)
    ensures s[j].prev == (if j > 0 then s[j - 1] else head)
    ensures s[j] != head && forall i :: 0 <= i < |s| && i != j ==> s[i] != s[j]
  {
    var c := [head] + s;
    assert c[j].next == After(c, j) == c[j + 1] && c[j + 1].prev == c[j];
    assert c[j + 1].next == After(c, j + 1) && c[0] == head;
    forall i | 0 <= i < |s| && i != j ensures s[i] != s[j] {
      assert c[i + 1] == s[i] && c[j + 1] == s[j];
    }
  }

  ghost function Inserted(c: seq<ListHead>, k: nat, e: ListHead): seq<ListHead>
    requires k < |c|
  {
    c[..k + 1] + [e] + c[k + 1..]
  }

  ghost function Removed(c: seq<ListHead>, k: nat): seq<ListHead>
    requires k < |c|
  {
    c[..k] + c[k + 1..]
  }

  lemma InsertedShape(c: seq<ListHead>, k: nat, e: ListHead)
    requires NoDup(c) && e !in c && k < |c|
    ensures var d := Inserted(c, k, e);
            && |d| == |c| + 1 && d[k + 1] == e && NoDup(d)
            && (forall i :: 0 <= i <= k ==> d[i] == c[i])
            && (forall i :: k + 1 < i < |d| ==> d[i] == c[i - 1])
  {
  }

  /** `__list_add`: link a node between two neighbours. */
  method LinkBetween(e: ListHead, prev: ListHead, next: ListHead, ghost c: seq<ListHead>, ghost k: nat)
    requires Cyclic(c) && e !in c && k < |c| && prev == c[k] && next == After(c, k)
    modifies prev`next, next`prev, e
    ensures Cyclic(Inserted(c, k, e))
  {
    InsertedShape(c, k, e);
    hide Inserted;
    next.prev := e;
    e.next := next;
    e.prev := prev;
    prev.next := e;
  }

  /** `__list_del`: make two nodes neighbours, dropping what was between them. */
  method UnlinkBetween(prev: ListHead, next: ListHead, ghost c: seq<ListHead>, ghost k: nat)
    requires Cyclic(c) && 0 < k < |c| && prev == c[k - 1] && next == After(c, k)
    modifies prev`next, next`prev
    ensures Cyclic(Removed(c, k))
  {
    next.prev := prev;
    prev.next := next;
  }

  /** list_add: right after the head. */
  method ListAdd(e: ListHead, head: ListHead, ghost s: seq<ListHead>)
    requires List(head, s) && e != head && e !in s
    modifies head, head.next, e
    ensures List(head, [e] + s)
  {
    Ends(head, s);
    LinkBetween(e, head, head.next, [head] + s, 0);
    assert Inserted([head] + s, 0, e) == [head] + ([e] + s);
  }

  /** list_add_tail: right before the head. */
  method ListAddTail(e: ListHead, head: ListHead, ghost s: seq<ListHead>)
    requires List(head, s) && e != head && e !in s
    modifies head, head.prev, e
    ensures List(head, s + [e])
  {
    Ends(head, s);
    ghost var c := [head] + s;
    assert head == After(c, |s|);
    LinkBetween(e, head.prev, head, c, |s|);
    assert Inserted(c, |s|, e) == [head] + (s + [e]);
  }

  /** __list_del_entry: the entry leaves its list; its own pointers stay. */
  method DelEntry(e: ListHead, ghost head: ListHead, ghost s: seq<ListHead>, ghost j: nat)
    requires List(head, s) && j < |s| && e == s[j]
    modifies e.prev, e.next
    ensures List(head, Removed(s, j)) && e !in Removed(s, j)
  {
    Neighbours(head, s, j);
    ghost var c := [head] + s;
    assert c[j + 1] == e && After(c, j) == e && e.next == After(c, j + 1);
    assert Removed(c, j + 1) == [head] + Removed(s, j);
    UnlinkBetween(e.prev, e.next, c, j + 1);
  }

  method ListDel(e: ListHead, ghost head: ListHead, ghost s: seq<ListHead>, ghost j: nat)
    requires List(head, s) && j < |s| && e == s[j]
    modifies e, e.prev, e.next
    ensures List(head, Removed(s, j)) && e !in Removed(s, j)
    ensures e.next == null && e.prev == null
  {
    Neighbours(head, s, j);
    DelEntry(e, head, s, j);
    e.next := null;
    e.prev := null;
  }

  method ListDelReinit(e: ListHead, ghost head: ListHead, ghost s: seq<ListHead>, ghost j: nat)
    requires List(head, s) && j < |s| && e == s[j]
    modifies e, e.prev, e.next
    ensures List(head, Removed(s, j)) && List(e, [])
  {
    ListDel(e, head, s, j);
    e.next, e.prev := e, e;
  }

  ghost predicate Apart(c: seq<ListHead>, d: seq<ListHead>) {
    forall i, j :: 0 <= i < |c| && 0 <= j < |d| ==> c[i] != d[j]
  }

  /** The list an entry is moved from is the list it is moved to, or shares no node with it. */
  ghost predicate Movable(origin: ListHead, s: seq<ListHead>, head: ListHead, t: seq<ListHead>) {
    (origin == head && s == t) || Apart([origin] + s, [head] + t)
  }

  lemma MoveKeepsApart(origin: ListHead, s: seq<ListHead>, head: ListHead, t: seq<ListHead>)
    requires Movable(origin, s, head, t)
    ensures origin == head ==> s == t
    ensures origin != head ==> head !in s && origin !in t && Apart(s, t)
  {
    if s != t || origin != head {
      var c, d := [origin] + s, [head] + t;
      assert c[0] == origin && d[0] == head;
      assert forall i :: 0 <= i < |s| ==> c[i + 1] == s[i];
      assert forall i :: 0 <= i < |t| ==> d[i + 1] == t[i];
    }
  }

  /** list_move: from wherever it is to the front of a list. */
  method ListMove(e: ListHead, head: ListHead,
                  ghost origin: ListHead, ghost s: seq<ListHead>, ghost j: nat, ghost t: seq<ListHead>)
    requires List(origin, s) && j < |s| && e == s[j] && List(head, t) && Movable(origin, s, head, t)
    modifies e, e.prev, e.next, head, head.next
    ensures origin == head ==> List(head, [e] + Removed(s, j))
    ensures origin != head ==> List(origin, Removed(s, j)) && List(head, [e] + t)
  {
    hide List, Cyclic, Movable;
    Neighbours(origin, s, j);
    Ends(head, t);
    MoveKeepsApart(origin, s, head, t);
    DelEntry(e, origin, s, j);
    ghost var t' := if origin == head then Removed(s, j) else t;
    assert List(head, t');
    Ends(head, t');
    assert head.next in {head, old(head.next), old(e.next)};
    ListAdd(e, head, t');
  }

  method ListMoveTail(e: ListHead, head: ListHead,
                      ghost origin: ListHead, ghost s: seq<ListHead>, ghost j: nat, ghost t: seq<ListHead>)
    requires List(origin, s) && j < |s| && e == s[j] && List(head, t) && Movable(origin, s, head, t)
    modifies e, e.prev, e.next, head, head.prev
    ensures origin == head ==> List(head, Removed(s, j) + [e])
    ensures origin != head ==> List(origin, Removed(s, j)) && List(head, t + [e])
  {
    hide List, Cyclic, Movable;
    Neighbours(origin, s, j);
    Ends(head, t);
    MoveKeepsApart(origin, s, head, t);
    DelEntry(e, origin, s, j);
    ghost var t' := if origin == head then Removed(s, j) else t;
    assert List(head, t');
    Ends(head, t');
    assert head.prev in {head, old(head.prev), old(e.prev)};
    ListAddTail(e, head, t');
  }

  /** list_del, then list_add to the head of the same list. */
  method ToFront(e: ListHead, head: ListHead, ghost s: seq<ListHead>, ghost j: nat)
    requires List(head, s) && j < |s| && e == s[j]
    modifies e, e.prev, e.next, head, head.next
    ensures List(head, [e] + Removed(s, j))
  {
    hide List, Cyclic;
    Neighbours(head, s, j);
    Ends(head, s);
    ListDel(e, head, s, j);
    Ends(head, Removed(s, j));
    assert head.next in {head, old(head.next), old(e.next)};
    ListAdd(e, head, Removed(s, j));
  }

  method ListEmpty(head: ListHead, ghost s: seq<ListHead>) returns (empty: bool)
    requires List(head, s)
    ensures empty <==> s == []
  {
    Ends(head, s);
    empty := head.next == head;
  }

  /** Consecutive nodes point at each other. */
  ghost predicate Chain(c: seq<ListHead>)
    reads c
  {
    forall i :: 0 <= i < |c| - 1 ==> c[i].next == c[i + 1] && c[i + 1].prev == c[i]
  }

  lemma JoinChains(a: seq<ListHead>, b: seq<ListHead>)
    requires Chain(a) && Chain(b) && a != [] && b != []
    requires a[|a| - 1].next == b[0] && b[0].prev == a[|a| - 1]
    ensures Chain(a + b)
  {
  }

  lemma JoinDistinct(a: seq<ListHead>, b: seq<ListHead>)
    requires NoDup(a) && NoDup(b) && Apart(b, a)
    ensures NoDup(a + b)
  {
  }

  lemma CloseRing(c: seq<ListHead>)
    requires c != [] && Chain(c) && NoDup(c) && c[|c| - 1].next == c[0] && c[0].prev == c[|c| - 1]
    ensures Cyclic(c)
  {
  }

  lemma OpenRing(c: seq<ListHead>)
    requires Cyclic(c)
    ensures c != [] && Chain(c) && NoDup(c) && c[|c| - 1].next == c[0] && c[0].prev == c[|c| - 1]
  {
    assert After(c, |c| - 1) == c[0];
    forall i | 0 <= i < |c| - 1 ensures c[i].next == c[i + 1] && c[i + 1].prev == c[i] {
      assert After(c, i) == c[i + 1];
    }
  }

  /** Changing what a chain's ends point at outside does not break the chain. */
  twostate lemma ChainStays(c: seq<ListHead>)
    requires old(Chain(c)) && NoDup(c)
    requires forall i :: 0 <= i < |c| - 1 ==> c[i].next == old(c[i].next)
    requires forall i :: 0 < i < |c| ==> c[i].prev == old(c[i].prev)
    ensures Chain(c)
  {
  }

  /** list_join_given_first: two rings without heads, each given by its first node, become one. */
  method JoinGivenFirst(firstNew: ListHead?, firstOld: ListHead?, ghost a: seq<ListHead>, ghost b: seq<ListHead>)
    requires firstNew != null ==> Cyclic(a) && a[0] == firstNew
    requires firstOld != null ==> Cyclic(b) && b[0] == firstOld
    requires firstNew != null && firstOld != null ==> Apart(a, b)
    modifies firstNew, firstOld
    modifies if firstNew == null then {} else {firstNew.prev}
    modifies if firstOld == null then {} else {firstOld.prev}
    ensures firstNew != null && firstOld != null ==> Cyclic(b + a)
    ensures firstNew == null && firstOld != null ==> Cyclic(b)
    ensures firstOld == null && firstNew != null ==> Cyclic(a)
  {
    hide Cyclic, Chain;
    if firstNew != null && firstOld != null {
      OpenRing(a);
      OpenRing(b);
      JoinDistinct(b, a);
      var last, first := firstNew.prev, firstNew;
      label Before:
      firstOld.prev.next := first;
      first.prev := firstOld.prev;
      last.next := firstOld;
      firstOld.prev := last;
      ChainStays@Before(a);
      ChainStays@Before(b);
      JoinChains(b, a);
      CloseRing(b + a);
    }
  }

  lemma OpenList(head: ListHead, s: seq<ListHead>)
    requires List(head, s)
    ensures Chain(s) && NoDup(s) && head !in s
  {
    var c := [head] + s;
    OpenRing(c);
    forall i | 0 <= i < |s| - 1 ensures s[i].next == s[i + 1] && s[i + 1].prev == s[i] {
      assert c[i + 1].next == c[i + 1 + 1];
    }
    assert forall i :: 0 <= i < |s| ==> c[i + 1] == s[i];
  }

  lemma CloseList(head: ListHead, s: seq<ListHead>)
    requires s != [] && Chain(s) && NoDup(s) && head !in s
    requires head.next == s[0] && s[0].prev == head && head.prev == s[|s| - 1] && s[|s| - 1].next == head
    ensures List(head, s)
  {
    JoinChains([head], s);
    CloseRing([head] + s);
  }

  /** list_splice: the contents of one list go to the front of another; the emptied head is left dangling. */
  method ListSplice(list: ListHead, head: ListHead, ghost t: seq<ListHead>, ghost s: seq<ListHead>)
    requires List(list, t) && List(head, s) && Apart([list] + t, [head] + s)
    modifies list.next, list.prev, head, head.next
    ensures List(head, t + s)
    ensures list.next == old(list.next) && list.prev == old(list.prev)
  {
    hide List, Cyclic, Chain;
    Ends(list, t);
    Ends(head, s);
    OpenList(list, t);
    OpenList(head, s);
    if s != [] {
      Neighbours(head, s, |s| - 1);
    }
    assert ([list] + t)[0] != ([head] + s)[0];
    MoveKeepsApart(list, t, head, s);
    hide Movable;
    var empty := ListEmpty(list, t);
    if !empty {
      var first, last, at := list.next, list.prev, head.next;
      label Before:
      first.prev := head;
      head.next := first;
      last.next := at;
      at.prev := last;
      ChainStays@Before(t);
      ChainStays@Before(s);
      if s != [] {
        JoinChains(t, s);
      }
      JoinDistinct(t, s);
      CloseList(head, t + s);
    }
    assert t == [] ==> t + s == s;
  }

  /** list_for_each: visits the contents in order. */
  method ForEach(head: ListHead, ghost s: seq<ListHead>) returns (visited: seq<ListHead>)
    requires List(head, s)
    ensures visited == s
  {
    Ends(head, s);
    ghost var c := [head] + s;
    visited := [];
    var pos := head.next;
    while pos != head
      invariant |visited| <= |s| && visited == s[..|visited|]
      invariant pos == After(c, |visited|)
      decreases |s| - |visited|
    {
      assert |visited| < |s| && pos == c[|visited| + 1];
      visited := visited + [pos];
      pos := pos.next;
    }
  }

  /** list_for_each_entry_reverse: visits them in reverse. */
  method ForEachReverse(head: ListHead, ghost s: seq<ListHead>) returns (visited: seq<ListHead>)
    requires List(head, s)
    ensures |visited| == |s| && forall i :: 0 <= i < |s| ==> visited[i] == s[|s| - 1 - i]
  {
    ghost var c := [head] + s;
    assert After(c, |s|) == head;
    visited := [];
    var pos := head.prev;
    while pos != head
      invariant |visited| <= |s| && pos == c[|s| - |visited|]
      invariant forall i :: 0 <= i < |visited| ==> visited[i] == s[|s| - 1 - i]
      decreases |s| - |visited|
    {
      ghost var k := |s| - |visited|;
      assert After(c, k - 1) == pos;
      visited := visited + [pos];
      pos := pos.prev;
    }
  }

  lemma FirstLeaves(s: seq<ListHead>, visited: seq<ListHead>, rest: seq<ListHead>)
    requires s == visited + rest && rest != []
    ensures rest[0] in s && (|rest| > 1 ==> rest[1] in s)
    ensures Removed(rest, 0) == rest[1..] && s == (visited + [rest[0]]) + rest[1..]
  {
  }

  /**
   list_for_each_entry_safe with the body deleting each entry: all are visited, in order, and
   the list ends empty.
   */
  method DeleteEach(head: ListHead, ghost s: seq<ListHead>) returns (visited: seq<ListHead>)
    requires List(head, s)
    modifies head, s
    ensures visited == s && List(head, [])
  {
    Ends(head, s);
    hide List, Cyclic, Removed;
    visited := [];
    ghost var rest := s;
    var pos: ListHead := head.next;
    var n := pos.next;
    while pos != head
      invariant List(head, rest) && s == visited + rest
      invariant pos == (if rest == [] then head else rest[0]) && n == pos.next
      decreases |rest|
    {
      Neighbours(head, rest, 0);
      FirstLeaves(s, visited, rest);
      visited := visited + [pos];
      ListDel(pos, head, rest, 0);
      rest := rest[1..];
      pos := n;
      n := n.next;
    }
  }
}
