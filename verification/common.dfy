/** Small facts about finite sets and sequences that several components share. */
module Common {

  datatype Option<+T> = None | Some(value: T)

  ghost predicate NoDup<T>(q: seq<T>) {
    forall i, j :: 0 <= i < j < |q| ==> q[i] != q[j]
  }

  /** The numbers below n. */
  ghost function Below(n: nat): (r: set<nat>)
    ensures |r| == n && forall i: nat :: i in r <==> i < n
  {
    if n == 0 then {} else Below(n - 1) + {n - 1}
  }

  ghost function Elements<T(!new)>(q: seq<T>): (r: set<T>)
    ensures forall x :: x in r <==> x in q
    ensures NoDup(q) ==> |r| == |q|
  {
    if q == [] then {}
    else
      assert NoDup(q) ==> NoDup(q[1..]) && q[0] !in q[1..];
      {q[0]} + Elements(q[1..])
  }

  lemma {:induction false} SubsetSize<T>(a: set<T>, b: set<T>)
    requires a <= b
    ensures |a| <= |b|
  {
    if a != {} {
      var x :| x in a;
      SubsetSize(a - {x}, b - {x});
    }
  }

  /** Two sets that agree except perhaps on x differ in size by their shares of x. */
  lemma SizesDifferAt<T(!new)>(a: set<T>, b: set<T>, x: T)
    requires forall u :: u != x ==> (u in a <==> u in b)
    ensures |a| - (if x in a then 1 else 0) == |b| - (if x in b then 1 else 0)
  {
    assert a - {x} == b - {x};
    assert x !in a ==> a - {x} == a;
    assert x !in b ==> b - {x} == b;
  }

  lemma SubsetSameSize<T>(a: set<T>, b: set<T>)
    requires a <= b && |a| == |b|
    ensures a == b
  {
    if exists x :: x in b && x !in a {
      var x :| x in b && x !in a;
      SubsetSize(a, b - {x});
    }
  }

  /** A duplicate-free list of n numbers below n holds each of them. */
  lemma PermutationCovers(q: seq<nat>, n: nat, b: nat)
    requires |q| == n && NoDup(q) && (forall i :: 0 <= i < n ==> q[i] < n) && b < n
    ensures b in q
  {
    SubsetSameSize(Elements(q), Below(n));
  }

  /** The sequence with every occurrence of one value taken out. */
  function Without<T(==,!new)>(q: seq<T>, t: T): (r: seq<T>)
    ensures t !in r && forall u :: u in r <==> u in q && u != t
    ensures NoDup(q) ==> NoDup(r) && |r| == if t in q then |q| - 1 else |q|
  {
    if q == [] then []
    else
      assert NoDup(q) ==> NoDup(q[1..]) && q[0] !in q[1..];
      var rest := Without(q[1..], t);
      assert NoDup(q) && q[0] != t ==> q[0] !in rest;
      if q[0] == t then rest else [q[0]] + rest
  }

  lemma {:induction false} WithoutAbsent<T(!new)>(q: seq<T>, t: T)
    requires t !in q
    ensures Without(q, t) == q
  {
    if q != [] {
      WithoutAbsent(q[1..], t);
    }
  }

  /** Taking out the element at position p closes the gap and keeps the order. */
  lemma {:induction false} WithoutShape<T(!new)>(q: seq<T>, p: nat)
    requires p < |q| && NoDup(q)
    ensures Without(q, q[p]) == q[..p] + q[p + 1..]
  {
    if p == 0 {
      WithoutAbsent(q[1..], q[0]);
    } else {
      assert q[1..][p - 1] == q[p];
      WithoutShape(q[1..], p - 1);
      assert q[..p] + q[p + 1..] == [q[0]] + (q[1..][..p - 1] + q[1..][p..]);
    }
  }

  // ------------------------------------------------------------ remainders

  /** A multiple of n that is smaller than n in size is zero. */
  lemma SmallMultiple(d: int, n: nat)
    requires 0 - n < d * n < n
    ensures d == 0
  {
    if d >= 1 {
      assert d * n == (d - 1) * n + n;
      ProductIsNatural(d - 1, n);
    } else if d <= -1 {
      assert d * n == -((-d - 1) * n) - n;
      ProductIsNatural(-d - 1, n);
    }
  }

  lemma ProductIsNatural(a: nat, b: nat)
    ensures a * b >= 0
  {
  }

  /** Quotient and remainder are determined by the equation between them. */
  lemma DivModUnique(x: nat, q: nat, r: nat, n: nat)
    requires n > 0 && x == q * n + r && r < n
    ensures x / n == q && x % n == r
  {
    var q', r' := x / n, x % n;
    Distribute(q, q', n);
    assert q' * n + r' == x;
    SmallMultiple(q - q', n);
  }

  lemma Distribute(a: int, b: int, n: int)
    ensures (a - b) * n == a * n - b * n
  {
  }

  /** Two numbers less than n apart have different remainders. */
  lemma RemaindersDiffer(i: nat, j: nat, n: nat)
    requires n > 0 && i < j < i + n
    ensures i % n != j % n
  {
    if i % n == j % n {
      var a, b := i / n, j / n;
      Distribute(b, a, n);
      assert i == a * n + i % n && j == b * n + j % n;
      SmallMultiple(b - a, n);
    }
  }

  lemma RemainderOfSum(c: nat, x: nat, n: nat)
    requires n > 0
    ensures (c * n + x) % n == x % n
  {
    var q := x / n;
    assert x == q * n + x % n;
    Distribute(c, -q, n);
    ProductIsNatural(c, n);
    assert (c + q) * n == c * n + q * n;
    DivModUnique(c * n + x, c + q, x % n, n);
  }

  /** The largest multiple of n below a number that is none itself. */
  lemma MultipleBelow(w: nat, n: nat)
    requires 0 < n <= w && w % n != 0
    ensures var i := w - w % n; i % n == 0 && n <= i < w < i + n
  {
    var i, q := w - w % n, w / n;
    assert w == q * n + w % n;
    DivModUnique(i, q, 0, n);
    if i < n {
      DivModUnique(i, 0, i, n);
    }
  }
}
