/**
 Reading file pages into the page cache: allocate the pages missing from a range, one
 contiguous block of memory per missing run, and transfer them in batches that are
 contiguous both in the file and in memory.
 */
module PageBatches {
  import opened Common

  const PGSIZE: nat := 4096

  /** A page of the file and the physical page that caches it. */
  datatype Item = Item(index: nat, pa: nat)

  /** A request to `fat32_rw_pages`: `cnt` pages from `index`, to or from memory at `pa`. */
  datatype Batch = Batch(pa: nat, index: nat, cnt: nat)

  predicate Adjacent(p: Item, q: Item) { p.index + 1 == q.index && p.pa + PGSIZE == q.pa }

  /** The page transfers a batch stands for. */
  ghost function Pages(b: Batch): seq<Item> {
    seq(b.cnt, k requires 0 <= k < b.cnt => Item(b.index + k, b.pa + k * PGSIZE))
  }

  ghost function Expand(bs: seq<Batch>): seq<Item> {
    if bs == [] then [] else Pages(bs[0]) + Expand(bs[1..])
  }

  /** The second batch starts where the first ends. */
  ghost predicate Continues(a: Batch, b: Batch) {
    b.index == a.index + a.cnt && b.pa == a.pa + a.cnt * PGSIZE
  }

  ghost predicate NonEmpty(bs: seq<Batch>) { forall k :: 0 <= k < |bs| ==> bs[k].cnt >= 1 }

  /** No two neighbouring batches could have been one. */
  ghost predicate Maximal(bs: seq<Batch>) {
    NonEmpty(bs) && forall k :: 0 <= k < |bs| - 1 ==> !Continues(bs[k], bs[k + 1])
  }

  lemma {:induction false} ExpandAppend(bs: seq<Batch>, b: Batch)
    ensures Expand(bs + [b]) == Expand(bs) + Pages(b)
  {
    if bs == [] {
      assert [b][1..] == [];
    } else {
      assert (bs + [b])[1..] == bs[1..] + [b];
      ExpandAppend(bs[1..], b);
    }
  }

  // ------------------------------------------------- maximal runs are unique

  lemma {:induction false} FirstPage(a: seq<Batch>)
    requires NonEmpty(a) && a != []
    ensures Expand(a) != [] && Expand(a)[0] == Item(a[0].index, a[0].pa)
  {
    assert Pages(a[0])[0] == Item(a[0].index, a[0].pa);
  }

  /** If another division of the same pages has a longer first batch, the second batch continues the first. */
  lemma {:induction false} LongerContinues(a: seq<Batch>, b: seq<Batch>)
    requires NonEmpty(a) && NonEmpty(b) && a != [] && b != [] && Expand(a) == Expand(b) && b[0].cnt > a[0].cnt
    ensures |a| > 1 && Continues(a[0], a[1])
  {
    var n := a[0].cnt;
    FirstPage(a);
    FirstPage(b);
    assert Expand(b)[n] == Pages(b[0])[n];
    assert |Expand(a)| == n + |Expand(a[1..])|;
    FirstPage(a[1..]);
    assert Expand(a)[n] == Expand(a[1..])[0];
  }

  /** A batch of a list that expands to the same pages cannot reach past a maximal first batch. */
  lemma {:induction false} FirstIsLongest(a: seq<Batch>, b: seq<Batch>)
    requires Maximal(a) && NonEmpty(b) && a != [] && b != [] && Expand(a) == Expand(b)
    ensures a[0].pa == b[0].pa && a[0].index == b[0].index && b[0].cnt <= a[0].cnt
  {
    FirstPage(a);
    FirstPage(b);
    if b[0].cnt > a[0].cnt {
      LongerContinues(a, b);
    }
  }

  lemma TailMaximal(a: seq<Batch>)
    requires Maximal(a) && a != []
    ensures Maximal(a[1..])
  {
    assert forall k :: 0 <= k < |a| - 2 ==> !Continues(a[1..][k], a[1..][k + 1]) by {
      forall k | 0 <= k < |a| - 2 ensures !Continues(a[1..][k], a[1..][k + 1]) {
        assert !Continues(a[k + 1], a[k + 1 + 1]);
      }
    }
  }

  lemma {:induction false} EmptyExpansion(a: seq<Batch>)
    requires NonEmpty(a) && Expand(a) == []
    ensures a == []
  {
    if a != [] {
      FirstPage(a);
    }
  }

  /** A list of pages has only one division into maximal batches. */
  lemma {:induction false} MaximalBatchesAreUnique(a: seq<Batch>, b: seq<Batch>)
    requires Maximal(a) && Maximal(b) && Expand(a) == Expand(b)
    ensures a == b
    decreases |a|
  {
    if a == [] {
      EmptyExpansion(b);
    } else if b == [] {
      EmptyExpansion(a);
    } else {
      FirstIsLongest(a, b);
      FirstIsLongest(b, a);
      assert Expand(a[1..]) == Expand(a)[a[0].cnt..] == Expand(b[1..]);
      TailMaximal(a);
      TailMaximal(b);
      MaximalBatchesAreUnique(a[1..], b[1..]);
      assert a == [a[0]] + a[1..] && b == [b[0]] + b[1..];
    }
  }

  /** The batch without its first `c` pages. */
  ghost function Rest(b: Batch, c: nat): Batch
    requires c <= b.cnt
  {
    Batch(b.pa + c * PGSIZE, b.index + c, b.cnt - c)
  }

  lemma RestPages(b: Batch, c: nat)
    requires c <= b.cnt
    ensures Pages(Rest(b, c)) == Pages(b)[c..]
  {
  }

  lemma RestContinues(a: Batch, c: nat, b: Batch)
    requires c <= a.cnt
    ensures Continues(Rest(a, c), b) <==> Continues(a, b)
  {
    assert c * PGSIZE + (a.cnt - c) * PGSIZE == a.cnt * PGSIZE;
  }

  lemma {:induction false} ShortenExpands(a: seq<Batch>, c: nat)
    requires a != [] && c < a[0].cnt
    ensures Expand([Rest(a[0], c)] + a[1..]) == Expand(a)[c..]
  {
    var a' := [Rest(a[0], c)] + a[1..];
    assert a'[1..] == a[1..];
    RestPages(a[0], c);
    var p, q := Pages(a[0]), Expand(a[1..]);
    assert Expand(a) == p + q;
    assert (p + q)[c..] == p[c..] + q;
  }

  lemma {:induction false} ShortenFirst(a: seq<Batch>, c: nat)
    requires Maximal(a) && a != [] && c < a[0].cnt
    ensures var a' := [Rest(a[0], c)] + a[1..]; Maximal(a') && Expand(a') == Expand(a)[c..]
  {
    ShortenExpands(a, c);
    var a' := [Rest(a[0], c)] + a[1..];
    forall k | 0 <= k < |a'| - 1 ensures !Continues(a'[k], a'[k + 1]) {
      RestContinues(a[0], c, a'[1]);
      assert !Continues(a[k], a[k + 1]);
    }
  }

  /** No other division issues fewer requests. */
  lemma {:induction false} MaximalBatchesAreFewest(a: seq<Batch>, b: seq<Batch>)
    requires Maximal(a) && NonEmpty(b) && Expand(a) == Expand(b)
    ensures |a| <= |b|
    decreases |b|
  {
    if b == [] {
      EmptyExpansion(a);
    } else if a != [] {
      FirstIsLongest(a, b);
      var c := b[0].cnt;
      assert Expand(b[1..]) == Expand(b)[c..];
      if c == a[0].cnt {
        assert Expand(a[1..]) == Expand(a)[c..];
        TailMaximal(a);
        MaximalBatchesAreFewest(a[1..], b[1..]);
      } else {
        ShortenFirst(a, c);
        MaximalBatchesAreFewest([Rest(a[0], c)] + a[1..], b[1..]);
      }
    }
  }

  // ------------------------------------------------------------- batching

  /** The last page of a batch. */
  ghost predicate Ends(b: Batch, p: Item) {
    b.cnt >= 1 && p == Item(b.index + b.cnt - 1, b.pa + (b.cnt - 1) * PGSIZE)
  }

  lemma NoBatches()
    ensures Expand([]) == [] && Maximal([])
  {
  }

  lemma OneBatch(p: Item)
    ensures Pages(Batch(p.pa, p.index, 1)) == [p] && Ends(Batch(p.pa, p.index, 1), p)
  {
  }

  lemma GrowBatch(b: Batch, q: Item, p: Item)
    requires Ends(b, q) && Adjacent(q, p)
    ensures Pages(b.(cnt := b.cnt + 1)) == Pages(b) + [p] && Ends(b.(cnt := b.cnt + 1), p)
  {
  }

  lemma {:induction false} AppendBatch(bs: seq<Batch>, b: Batch, p: Item, q: Item)
    requires Maximal(bs) && b.cnt >= 1 && q == Item(b.index, b.pa)
    requires bs != [] ==> Ends(bs[|bs| - 1], p) && !Adjacent(p, q)
    ensures Maximal(bs + [b]) && Expand(bs + [b]) == Expand(bs) + Pages(b)
  {
    ExpandAppend(bs, b);
    hide Expand, Pages;
    var bs' := bs + [b];
    forall k | 0 <= k < |bs'| - 1 ensures !Continues(bs'[k], bs'[k + 1]) {
      if k < |bs| - 1 {
        assert !Continues(bs[k], bs[k + 1]);
      }
    }
  }

  /**
   `fat32_rw_pages_batch`: the requests issued for a page list transfer exactly its
   pages, in order, in maximal contiguous batches.
   */
  method RwPagesBatch(items: seq<Item>) returns (batches: seq<Batch>)
    ensures Expand(batches) == items && Maximal(batches)
  {
    hide Expand, Maximal, Pages;
    NoBatches();
    batches := [];
    var i := 0;
    while i < |items|
      invariant 0 <= i <= |items|
      invariant Expand(batches) == items[..i] && Maximal(batches)
      invariant i == 0 ==> batches == []
      invariant i > 0 ==> batches != [] && Ends(batches[|batches| - 1], items[i - 1])
      invariant 0 < i < |items| ==> !Adjacent(items[i - 1], items[i])
    {
      var head, n := items[i], 1;
      OneBatch(head);
      assert items[i..i + 1] == [head];
      while i + n < |items| && Adjacent(items[i + n - 1], items[i + n])
        invariant 1 <= n && i + n <= |items|
        invariant Pages(Batch(head.pa, head.index, n)) == items[i..i + n]
        invariant Ends(Batch(head.pa, head.index, n), items[i + n - 1])
      {
        GrowBatch(Batch(head.pa, head.index, n), items[i + n - 1], items[i + n]);
        assert items[i..i + n + 1] == items[i..i + n] + [items[i + n]];
        n := n + 1;
      }
      AppendBatch(batches, Batch(head.pa, head.index, n), items[if i > 0 then i - 1 else 0], head);
      assert items[..i + n] == items[..i] + items[i..i + n];
      batches := batches + [Batch(head.pa, head.index, n)];
      i := i + n;
    }
    assert items[..i] == items;
  }

  // ------------------------------------------------------ disk vectors

  /** A run of disk blocks and the memory it is transferred with. */
  datatype Vec = Vec(start: nat, len: nat, data: nat)

  /** The disk blocks of a vector list, in order. */
  ghost function Blocks(vs: seq<Vec>): seq<nat> {
    if vs == [] then []
    else
      var v := vs[|vs| - 1];
      Blocks(vs[..|vs| - 1]) + seq(v.len, k requires 0 <= k < v.len => v.start + k)
  }

  /** The memory address of each of those blocks. */
  ghost function Addresses(vs: seq<Vec>, bsize: nat): seq<nat> {
    if vs == [] then []
    else
      var v := vs[|vs| - 1];
      Addresses(vs[..|vs| - 1], bsize) + seq(v.len, k requires 0 <= k < v.len => v.data + k * bsize)
  }

  ghost function Consecutive(src: nat, n: nat, bsize: nat): seq<nat> {
    seq(n, k requires 0 <= k < n => src + k * bsize)
  }

  lemma ExtendConsecutive(src: nat, n: nat, len: nat, bsize: nat)
    ensures Consecutive(src, n, bsize) + Consecutive(src + n * bsize, len, bsize) == Consecutive(src, n + len, bsize)
  {
    var l, r := Consecutive(src, n, bsize) + Consecutive(src + n * bsize, len, bsize), Consecutive(src, n + len, bsize);
    forall k | n <= k < n + len ensures l[k] == r[k] {
      assert n * bsize + (k - n) * bsize == k * bsize;
    }
    assert l == r;
  }

  /**
   The loop of `block_full_pages`: the blocks found for a batch, however many vectors
   they are in, are transferred with consecutive memory from `src` on.
   */
  method AssignData(vs: seq<Vec>, src: nat, bsize: nat) returns (out: seq<Vec>)
    ensures Blocks(out) == Blocks(vs) && |out| == |vs|
    ensures Addresses(out, bsize) == Consecutive(src, |Blocks(vs)|, bsize)
  {
    out := [];
    var at := src;
    while |out| < |vs|
      invariant |out| <= |vs| && Blocks(out) == Blocks(vs[..|out|])
      invariant at == src + |Blocks(out)| * bsize
      invariant Addresses(out, bsize) == Consecutive(src, |Blocks(out)|, bsize)
      decreases |vs| - |out|
    {
      var v := vs[|out|];
      AppendVec(vs[..|out|], v, out, at, bsize);
      assert vs[..|out| + 1] == vs[..|out|] + [v];
      ExtendConsecutive(src, |Blocks(out)|, v.len, bsize);
      hide Blocks, Addresses, Consecutive;
      out := out + [v.(data := at)];
      at := at + v.len * bsize;
    }
    assert vs[..|vs|] == vs;
  }

  lemma {:induction false} AppendVec(vs: seq<Vec>, v: Vec, out: seq<Vec>, at: nat, bsize: nat)
    requires Blocks(out) == Blocks(vs)
    ensures var out' := out + [v.(data := at)];
            && Blocks(out') == Blocks(vs + [v]) && |Blocks(out')| == |Blocks(out)| + v.len
            && |Blocks(out')| * bsize == |Blocks(out)| * bsize + v.len * bsize
            && Addresses(out', bsize) == Addresses(out, bsize) + Consecutive(at, v.len, bsize)
  {
    var out' := out + [v.(data := at)];
    assert out'[..|out|] == out && (vs + [v])[..|vs|] == vs;
    assert (|Blocks(out)| + v.len) * bsize == |Blocks(out)| * bsize + v.len * bsize;
  }

  /** So each page of a batch is transferred with the memory the batch stands for, block by block. */
  lemma BatchPlacesEachPage(b: Batch, per: nat, bsize: nat, i: nat, k: nat)
    requires per * bsize == PGSIZE && i < b.cnt && k < per
    ensures i * per + k < b.cnt * per
    ensures Consecutive(b.pa, b.cnt * per, bsize)[i * per + k] == Pages(b)[i].pa + k * bsize
  {
    assert (b.cnt - 1 - i) * per + (i * per + k) + (per - k) == b.cnt * per;
    ProductIsNatural(b.cnt - 1 - i, per);
    assert (i * per + k) * bsize == i * (per * bsize) + k * bsize;
  }

  // ------------------------------------------------------- missing pages

  datatype Run = Run(start: nat, len: nat)

  /** The first cached index at or after `i`, or the end of the range. */
  ghost function NextCached(m: map<nat, nat>, i: nat, end: nat): (j: nat)
    requires i <= end
    ensures i <= j <= end && (j < end ==> j in m) && forall k :: i <= k < j ==> k !in m
    decreases end - i
  {
    if i == end || i in m then i else NextCached(m, i + 1, end)
  }

  /** The runs of missing indices in [i, end). */
  ghost function Runs(m: map<nat, nat>, i: nat, end: nat): seq<Run>
    requires i <= end
    decreases end - i
  {
    if i == end then []
    else if i in m then Runs(m, i + 1, end)
    else
      var j := NextCached(m, i, end);
      [Run(i, j - i)] + Runs(m, j, end)
  }

  /** One batch per run, the k-th at the k-th allocation. */
  ghost function Placed(rs: seq<Run>, from: nat, at: nat -> nat): seq<Batch> {
    seq(|rs|, k requires 0 <= k < |rs| => Batch(at(from + k), rs[k].start, rs[k].len))
  }

  ghost predicate Covers(rs: seq<Run>, x: nat) {
    exists k :: 0 <= k < |rs| && rs[k].start <= x < rs[k].start + rs[k].len
  }

  lemma CoversCons(r: Run, rest: seq<Run>, x: nat)
    ensures Covers([r] + rest, x) <==> r.start <= x < r.start + r.len || Covers(rest, x)
  {
    var rs := [r] + rest;
    if Covers(rest, x) {
      var k :| 0 <= k < |rest| && rest[k].start <= x < rest[k].start + rest[k].len;
      assert rs[k + 1] == rest[k];
    }
    if r.start <= x < r.start + r.len {
      assert rs[0] == r;
    }
    if Covers(rs, x) {
      var k :| 0 <= k < |rs| && rs[k].start <= x < rs[k].start + rs[k].len;
      assert k > 0 ==> rs[k] == rest[k - 1];
    }
  }

  /** The runs cover exactly the missing indices of the range. */
  lemma {:induction false} RunsAreTheMissing(m: map<nat, nat>, i: nat, end: nat, x: nat)
    requires i <= end
    ensures Covers(Runs(m, i, end), x) <==> i <= x < end && x !in m
    decreases end - i
  {
    if i < end {
      if i in m {
        RunsAreTheMissing(m, i + 1, end, x);
      } else {
        var j := NextCached(m, i, end);
        RunsAreTheMissing(m, j, end, x);
        CoversCons(Run(i, j - i), Runs(m, j, end), x);
      }
    }
  }

  /**
   Each run is in the range, not empty, and ends at a cached page or the end of the range;
   the next one starts after that.
   */
  ghost predicate Separated(m: map<nat, nat>, rs: seq<Run>, i: nat, end: nat) {
    && (forall k :: 0 <= k < |rs| ==> i <= rs[k].start && rs[k].len >= 1 && rs[k].start + rs[k].len <= end)
    && (forall k :: 0 <= k < |rs| ==> (rs[k].start + rs[k].len < end ==> rs[k].start + rs[k].len in m))
    && (forall k :: 0 <= k < |rs| - 1 ==> rs[k].start + rs[k].len < rs[k + 1].start)
  }

  lemma {:induction false} RunsAreSeparated(m: map<nat, nat>, i: nat, end: nat)
    requires i <= end
    ensures Separated(m, Runs(m, i, end), i, end)
    decreases end - i
  {
    if i < end {
      if i in m {
        RunsAreSeparated(m, i + 1, end);
        assert Runs(m, i, end) == Runs(m, i + 1, end);
      } else {
        var j := NextCached(m, i, end);
        RunsAreSeparated(m, j, end);
        var rest := Runs(m, j, end);
        if rest != [] {
          RunsAreTheMissing(m, j, end, j);
          StartCovered(rest);
        }
        assert Runs(m, i, end) == [Run(i, j - i)] + rest;
        hide Separated, Runs, Covers;
        SeparatedCons(m, Run(i, j - i), rest, end);
      }
    }
  }

  lemma StartCovered(rs: seq<Run>)
    requires rs != [] && rs[0].len >= 1
    ensures Covers(rs, rs[0].start)
  {
  }

  lemma SeparatedCons(m: map<nat, nat>, r: Run, rest: seq<Run>, end: nat)
    requires r.len >= 1 && r.start + r.len <= end && (r.start + r.len < end ==> r.start + r.len in m)
    requires Separated(m, rest, r.start + r.len, end)
    requires rest != [] ==> rest[0].start != r.start + r.len
    ensures Separated(m, [r] + rest, r.start, end)
  {
    var rs := [r] + rest;
    forall k | 0 <= k < |rs| - 1 ensures rs[k].start + rs[k].len < rs[k + 1].start {
      if k > 0 {
        assert rest[k - 1].start + rest[k - 1].len < rest[k - 1 + 1].start;
      }
    }
  }

  lemma {:induction false} PlacedIsMaximal(m: map<nat, nat>, i: nat, end: nat, at: nat -> nat)
    requires i <= end
    ensures Maximal(Placed(Runs(m, i, end), 0, at))
  {
    RunsAreSeparated(m, i, end);
  }

  /** The cache after inserting a list of pages. */
  ghost function Filled(m: map<nat, nat>, items: seq<Item>): map<nat, nat> {
    if items == [] then m
    else
      var p := items[|items| - 1];
      Filled(m, items[..|items| - 1])[p.index := p.pa]
  }

  ghost function MissingList(m: map<nat, nat>, i: nat, end: nat): seq<nat>
    requires i <= end
    decreases end - i
  {
    if i == end then [] else (if i in m then [] else [i]) + MissingList(m, i + 1, end)
  }

  // ------------------------------------------------- the page cache in place

  lemma PlacedSnoc(rs: seq<Run>, r: Run, at: nat -> nat)
    ensures Expand(Placed(rs + [r], 0, at)) == Expand(Placed(rs, 0, at)) + Pages(Batch(at(|rs|), r.start, r.len))
  {
    assert Placed(rs + [r], 0, at) == Placed(rs, 0, at) + [Batch(at(|rs|), r.start, r.len)];
    ExpandAppend(Placed(rs, 0, at), Batch(at(|rs|), r.start, r.len));
  }

  lemma {:induction false} FilledSnoc(m: map<nat, nat>, items: seq<Item>, p: Item)
    ensures Filled(m, items + [p]) == Filled(m, items)[p.index := p.pa]
  {
    assert (items + [p])[..|items|] == items;
  }

  lemma NothingYet(items: seq<Item>, pa: nat, index: nat)
    ensures Pages(Batch(pa, index, 0)) == [] && items + Pages(Batch(pa, index, 0)) == items
  {
  }

  lemma {:induction false} InsertStep(m: map<nat, nat>, items: seq<Item>, b: Batch)
    ensures var p, b' := Item(b.index + b.cnt, b.pa + b.cnt * PGSIZE), b.(cnt := b.cnt + 1);
            && Pages(b') == Pages(b) + [p]
            && Filled(m, items + Pages(b')) == Filled(m, items + Pages(b))[p.index := p.pa]
  {
    var p := Item(b.index + b.cnt, b.pa + b.cnt * PGSIZE);
    assert Pages(b.(cnt := b.cnt + 1)) == Pages(b) + [p];
    assert items + (Pages(b) + [p]) == (items + Pages(b)) + [p];
    FilledSnoc(m, items + Pages(b), p);
  }

  lemma PlacedNext(k: nat, n: nat, at: nat -> nat)
    requires k < n
    ensures AllPlaced(k, at) && at(k) != 0 ==> AllPlaced(k + 1, at)
    ensures at(k) == 0 ==> !AllPlaced(n, at)
  {
  }

  class PageCache {
    var pages: map<nat, nat>

    /**
     Insert the pages [start, end) of the range, allocated at `pa`, and list them; a single
     page that is not to be read is not listed. `itemAt(k)` is the allocation of the k-th
     list item, 0 when memory is exhausted; `before` items have been allocated already.
     */
    method InsertRun(index: nat, start: nat, end: nat, pa: nat, unlisted: bool, before: nat, itemAt: nat -> nat,
                     ghost m: map<nat, nat>, ghost items: seq<Item>)
      returns (ok: bool, listed: seq<Item>)
      requires start < end && pages == Filled(m, items) && (unlisted ==> end == start + 1)
      requires AllPlaced(before, itemAt)
      modifies this
      ensures ok <==> unlisted || AllPlaced(before + end - start, itemAt)
      ensures ok ==> pages == Filled(m, items + Pages(Batch(pa, index + start, end - start)))
      ensures ok ==> listed == if unlisted then [] else Pages(Batch(pa, index + start, end - start))
    {
      hide Filled, Pages, AllPlaced;
      listed := [];
      var z := start;
      NothingYet(items, pa, index + start);
      while z < end
        invariant start <= z <= end && (unlisted ==> z == start)
        invariant pages == Filled(m, items + Pages(Batch(pa, index + start, z - start)))
        invariant listed == Pages(Batch(pa, index + start, z - start)) && AllPlaced(before + z - start, itemAt)
      {
        var at, i := pa + (z - start) * PGSIZE, index + z;
        InsertStep(m, items, Batch(pa, index + start, z - start));
        PlacedNext(before + z - start, before + end - start, itemAt);
        pages := pages[i := at];
        if unlisted {
          return true, [];
        }
        if itemAt(before + z - start) == 0 {
          return false, [];
        }
        listed := listed + [Item(i, at)];
        z := z + 1;
      }
      ok := true;
    }

    /** The second pointer: the end of the missing run that starts at `start`. */
    method MissingEnd(index: nat, start: nat, cnt: nat) returns (end: nat)
      requires start < cnt && index + start !in pages
      ensures start < end <= cnt && (end < cnt ==> index + end in pages)
      ensures forall k :: index + start <= k < index + end ==> k !in pages
    {
      end := start + 1;
      while end < cnt && index + end !in pages
        invariant start < end <= cnt
        invariant forall k :: index + start <= k < index + end ==> k !in pages
      {
        end := end + 1;
      }
    }

    /**
     `mpage_readpages` on a range of `cnt` pages; `at(k)` is the k-th allocation of pages and
     `itemAt(k)` the k-th of a list item, 0 when memory is exhausted. None stands for a
     kernel panic.
     */
    method ReadPages(index: nat, cnt: nat, readFromDisk: bool, at: nat -> nat, itemAt: nat -> nat)
      returns (first: Option<nat>, batches: seq<Batch>)
      modifies this
      ensures first == None <==>
                || cnt == 0 || index in old(pages)
                || (exists k :: 0 <= k < |Runs(old(pages), index, index + cnt)| && at(k) == 0)
                || (!(cnt == 1 && !readFromDisk)
                    && exists k :: 0 <= k < |MissingList(old(pages), index, index + cnt)| && itemAt(k) == 0)
      ensures first.Some? ==> first.value == at(0)
      ensures first.Some? ==> pages == AfterRead(old(pages), index, index + cnt, at)
      ensures first.Some? ==>
                batches == if readFromDisk then Placed(Runs(old(pages), index, index + cnt), 0, at) else []
    {
      hide Runs, Expand, Placed, Filled, Pages, Progress, AfterRead, Maximal, AllPlaced, NextCached, MissingList;
      batches := [];
      if cnt == 0 {
        return None, [];
      }
      ghost var m, to, rs := pages, index + cnt, [];
      var items: seq<Item>, firstPa, calls, start := [], 0, 0, 0;
      var unlisted := cnt == 1 && !readFromDisk;
      PlacedIff(|Runs(m, index, to)|, at);
      PlacedIff(|MissingList(m, index, to)|, itemAt);
      StartProgress(m, index, to, at);
      StartProgress(m, index, to, itemAt);
      while start < cnt
        invariant 0 <= start <= cnt + 1 && calls == |rs| && AllPlaced(calls, at)
        invariant Progress(m, pages, index, to, index + Min(start, cnt), rs, items, at)
        invariant AllPlaced(|items|, itemAt)
        invariant if start == 0 then firstPa == 0 && rs == [] else index !in m && rs != [] && firstPa == at(0) != 0
        decreases cnt + 1 - start
      {
        LookupAhead(m, pages, index, to, index + start, rs, items, at);
        if index + start !in pages {
          var pa, end, ok, more := FillRun(index, start, cnt, unlisted, calls, at, |items|, itemAt, m, rs, items);
          if pa == 0 || !ok {
            return None, [];
          }
          calls := calls + 1;
          if firstPa == 0 {
            firstPa := pa;
          }
          rs := rs + [Run(index + start, end - start)];
          if unlisted {
            EndProgress(m, pages, index, to, rs, items + Pages(Batch(pa, index, 1)), at);
            return Some(firstPa), [];
          }
          items := items + more;
          start := end + 1;
        } else {
          if start == 0 {
            return None, [];
          }
          SkipProgress(m, pages, index, to, index + start, rs, items, at);
          start := start + 1;
        }
      }
      EndProgress(m, pages, index, to, rs, items, at);
      if readFromDisk {
        batches := RwPagesBatch(items);
        PlacedIsMaximal(m, index, to, at);
        MaximalBatchesAreUnique(batches, Placed(rs, 0, at));
      }
      first := Some(firstPa);
    }

    /** Find the end of a missing run, allocate its pages and insert them. */
    method FillRun(index: nat, start: nat, cnt: nat, unlisted: bool, calls: nat, at: nat -> nat,
                   before: nat, itemAt: nat -> nat,
                   ghost m: map<nat, nat>, ghost rs: seq<Run>, ghost items: seq<Item>)
      returns (pa: nat, end: nat, ok: bool, listed: seq<Item>)
      requires start < cnt && index + start !in pages && calls == |rs| && (unlisted ==> cnt == 1)
      requires Progress(m, pages, index, index + cnt, index + start, rs, items, at)
      requires before == |items| && AllPlaced(before, itemAt)
      modifies this
      ensures start < end <= cnt && pa == at(calls)
      ensures pa == 0 ==> !AllPlaced(|Runs(m, index, index + cnt)|, at)
      ensures pa != 0 && AllPlaced(calls, at) ==> AllPlaced(calls + 1, at)
      ensures pa != 0 && !ok ==> !unlisted && !AllPlaced(|MissingList(m, index, index + cnt)|, itemAt)
      ensures pa != 0 && ok && !unlisted ==> AllPlaced(before + |listed|, itemAt)
      ensures var items' := items + Pages(Batch(pa, index + start, end - start));
              pa != 0 && ok ==> Progress(m, pages, index, index + cnt, index + Min(end + 1, cnt),
                                         rs + [Run(index + start, end - start)], items', at)
      ensures pa != 0 && ok ==> listed == if unlisted then [] else Pages(Batch(pa, index + start, end - start))
    {
      hide Runs, Expand, Placed, Filled, Progress, AllPlaced, NextCached, MissingList;
      LookupAhead(m, pages, index, index + cnt, index + start, rs, items, at);
      end := MissingEnd(index, start, cnt);
      RunProgress(m, pages, index, index + cnt, index + start, index + end, rs, items, at);
      pa := at(calls);
      if pa == 0 {
        return pa, end, false, [];
      }
      ghost var items' := items + Pages(Batch(pa, index + start, end - start));
      ItemsWithin(m, Filled(m, items'), index, index + cnt, index + Min(end + 1, cnt),
                  rs + [Run(index + start, end - start)], items', at);
      ok, listed := InsertRun(index, start, end, pa, unlisted, before, itemAt, m, items);
      PlacedLess(before + end - start, |MissingList(m, index, index + cnt)|, itemAt);
    }
  }

  lemma PlacedIff(n: nat, at: nat -> nat)
    ensures !AllPlaced(n, at) <==> exists k :: 0 <= k < n && at(k) == 0
  {
  }

  lemma PlacedLess(a: nat, b: nat, at: nat -> nat)
    requires a <= b
    ensures AllPlaced(b, at) ==> AllPlaced(a, at)
  {
  }

  lemma NonePlaced(from: nat, at: nat -> nat)
    ensures Expand(Placed([], from, at)) == []
  {
  }

  lemma {:induction false} PlacedConcat(rs: seq<Run>, qs: seq<Run>, from: nat, at: nat -> nat)
    ensures Expand(Placed(rs + qs, from, at)) == Expand(Placed(rs, from, at)) + Expand(Placed(qs, from + |rs|, at))
    decreases |rs|
  {
    hide Expand, Placed;
    if rs == [] {
      assert [] + qs == qs;
      NonePlaced(from, at);
    } else {
      assert rs == [rs[0]] + rs[1..] && rs + qs == [rs[0]] + (rs[1..] + qs);
      PlacedCons(rs[0], rs[1..] + qs, from, at);
      PlacedCons(rs[0], rs[1..], from, at);
      PlacedConcat(rs[1..], qs, from + 1, at);
    }
  }

  /** No more pages are listed than are missing. */
  lemma {:induction false} ItemsWithin(m: map<nat, nat>, p: map<nat, nat>, i: nat, end: nat, next: nat,
                    rs: seq<Run>, items: seq<Item>, at: nat -> nat)
    requires Progress(m, p, i, end, next, rs, items, at)
    ensures |items| <= |MissingList(m, i, end)|
  {
    PagesAreTheMissing(m, i, end, 0, at);
    PlacedConcat(rs, Runs(m, next, end), 0, at);
    hide Expand, Placed, Runs, MissingList, Filled;
  }

  /** The range has been handled up to `next`. */
  ghost predicate Progress(m: map<nat, nat>, p: map<nat, nat>, i: nat, end: nat, next: nat,
                           rs: seq<Run>, items: seq<Item>, at: nat -> nat) {
    && i <= next <= end
    && rs + Runs(m, next, end) == Runs(m, i, end)
    && p == Filled(m, items) && items == Expand(Placed(rs, 0, at)) && ItemsBelow(items, next)
  }

  lemma StartProgress(m: map<nat, nat>, i: nat, end: nat, at: nat -> nat)
    requires i <= end
    ensures Progress(m, m, i, end, i, [], [], at) && AllPlaced(0, at)
  {
  }

  lemma {:induction false} LookupAhead(m: map<nat, nat>, p: map<nat, nat>, i: nat, end: nat, next: nat,
                    rs: seq<Run>, items: seq<Item>, at: nat -> nat)
    requires Progress(m, p, i, end, next, rs, items, at)
    ensures p == Filled(m, items) && (next in p <==> next in m)
  {
    FilledAbove(m, items, next);
  }

  lemma SkipProgress(m: map<nat, nat>, p: map<nat, nat>, i: nat, end: nat, next: nat,
                     rs: seq<Run>, items: seq<Item>, at: nat -> nat)
    requires Progress(m, p, i, end, next, rs, items, at) && next < end && next in m
    ensures Progress(m, p, i, end, next + 1, rs, items, at)
  {
  }

  lemma {:induction false} RunProgress(m: map<nat, nat>, p: map<nat, nat>, i: nat, end: nat, next: nat, j: nat,
                    rs: seq<Run>, items: seq<Item>, at: nat -> nat)
    requires Progress(m, p, i, end, next, rs, items, at) && next < j <= end
    requires (forall k :: next <= k < j ==> k !in p) && (j < end ==> j in p)
    ensures AllPlaced(|rs|, at) && at(|rs|) != 0 ==> AllPlaced(|rs| + 1, at)
    ensures at(|rs|) == 0 ==> !AllPlaced(|Runs(m, i, end)|, at)
    ensures var items' := items + Pages(Batch(at(|rs|), next, j - next));
            Progress(m, Filled(m, items'), i, end, if j < end then j + 1 else j, rs + [Run(next, j - next)], items', at)
  {
    FilledAbove(m, items, next);
    RunsStep(m, next, j, end);
    var r := Run(next, j - next);
    assert Runs(m, i, end) == (rs + [r]) + Runs(m, j, end);
    PlacedSnoc(rs, r, at);
    var more := Pages(Batch(at(|rs|), next, j - next));
    assert ItemsBelow(items + more, j);
  }

  lemma {:induction false} EndProgress(m: map<nat, nat>, p: map<nat, nat>, i: nat, end: nat,
                    rs: seq<Run>, items: seq<Item>, at: nat -> nat)
    requires Progress(m, p, i, end, end, rs, items, at)
    ensures rs == Runs(m, i, end) && p == AfterRead(m, i, end, at) && items == Expand(Placed(rs, 0, at))
    ensures |items| == |MissingList(m, i, end)|
  {
    PagesAreTheMissing(m, i, end, 0, at);
    hide Expand, Placed, MissingList, Filled;
  }

  ghost function Min(a: nat, b: nat): nat { if a < b then a else b }

  ghost predicate AllPlaced(n: nat, at: nat -> nat) { forall k :: 0 <= k < n ==> at(k) != 0 }

  ghost predicate SameFrom(m: map<nat, nat>, m': map<nat, nat>, i: nat) {
    forall x :: x >= i ==> (x in m <==> x in m')
  }

  ghost function AfterRead(m: map<nat, nat>, i: nat, end: nat, at: nat -> nat): map<nat, nat>
    requires i <= end
  {
    Filled(m, Expand(Placed(Runs(m, i, end), 0, at)))
  }

  lemma RunsStep(m: map<nat, nat>, i: nat, j: nat, end: nat)
    requires i < j <= end && (forall k :: i <= k < j ==> k !in m) && (j < end ==> j in m)
    ensures Runs(m, i, end) == [Run(i, j - i)] + Runs(m, j, end)
    ensures j < end ==> Runs(m, j, end) == Runs(m, j + 1, end)
  {
    var n := NextCached(m, i, end);
    assert n == j;
  }

  ghost predicate ItemsBelow(items: seq<Item>, i: nat) {
    forall k :: 0 <= k < |items| ==> items[k].index < i
  }

  lemma {:induction false} FilledAbove(m: map<nat, nat>, items: seq<Item>, i: nat)
    requires ItemsBelow(items, i)
    ensures SameFrom(m, Filled(m, items), i)
  {
    if items != [] {
      FilledAbove(m, items[..|items| - 1], i);
    }
  }

  // --------------------------------------------------- what reading amounts to

  lemma {:induction false} MissingPrefix(m: map<nat, nat>, i: nat, j: nat, end: nat)
    requires i <= j <= end && forall k :: i <= k < j ==> k !in m
    ensures MissingList(m, i, end) == seq(j - i, k requires 0 <= k < j - i => i + k) + MissingList(m, j, end)
    decreases j - i
  {
    if i < j {
      MissingPrefix(m, i + 1, j, end);
      var l := seq(j - i, k requires 0 <= k < j - i => i + k);
      assert l == [i] + seq(j - i - 1, k requires 0 <= k < j - i - 1 => i + 1 + k);
    }
  }

  lemma {:induction false} MissingIncreases(m: map<nat, nat>, i: nat, end: nat)
    requires i <= end
    ensures var l := MissingList(m, i, end);
            && (forall x :: x in l <==> i <= x < end && x !in m)
            && Increasing(l)
    decreases end - i
  {
    if i < end {
      MissingIncreases(m, i + 1, end);
      var rest := MissingList(m, i + 1, end);
      assert forall a :: 0 <= a < |rest| ==> rest[a] in rest;
      assert MissingList(m, i, end) == (if i in m then [] else [i]) + rest;
      hide MissingList;
    }
  }

  ghost predicate Increasing(l: seq<nat>) { forall a, b :: 0 <= a < b < |l| ==> l[a] < l[b] }

  ghost predicate Indexed(items: seq<Item>, l: seq<nat>) {
    |items| == |l| && forall k :: 0 <= k < |l| ==> items[k].index == l[k]
  }

  lemma JoinIndexed(a: seq<Item>, la: seq<nat>, b: seq<Item>, lb: seq<nat>)
    requires Indexed(a, la) && Indexed(b, lb)
    ensures Indexed(a + b, la + lb)
  {
  }

  lemma PlacedCons(r: Run, rest: seq<Run>, from: nat, at: nat -> nat)
    ensures Expand(Placed([r] + rest, from, at))
         == Pages(Batch(at(from), r.start, r.len)) + Expand(Placed(rest, from + 1, at))
  {
    var ps := Placed([r] + rest, from, at);
    assert ps[1..] == Placed(rest, from + 1, at);
    assert ps[0] == Batch(at(from), r.start, r.len);
  }

  lemma {:induction false} PagesAreTheMissing(m: map<nat, nat>, i: nat, end: nat, from: nat, at: nat -> nat)
    requires i <= end
    ensures Indexed(Expand(Placed(Runs(m, i, end), from, at)), MissingList(m, i, end))
    decreases end - i
  {
    if i < end {
      if i in m {
        PagesAreTheMissing(m, i + 1, end, from, at);
      } else {
        var j := NextCached(m, i, end);
        var rest := Runs(m, j, end);
        PagesAreTheMissing(m, j, end, from + 1, at);
        MissingPrefix(m, i, j, end);
        assert Runs(m, i, end) == [Run(i, j - i)] + rest;
        PlacedCons(Run(i, j - i), rest, from, at);
        hide Expand, Placed, Runs, MissingList, NextCached;
        JoinIndexed(Pages(Batch(at(from), i, j - i)), seq(j - i, k requires 0 <= k < j - i => i + k),
                    Expand(Placed(rest, from + 1, at)), MissingList(m, j, end));
      }
    }
  }

  lemma {:induction false} FilledKeys(m: map<nat, nat>, items: seq<Item>, l: seq<nat>, x: nat)
    requires Indexed(items, l)
    ensures x in Filled(m, items) <==> x in m || x in l
    ensures x in m && x !in l ==> Filled(m, items)[x] == m[x]
  {
    if items != [] {
      var n := |items| - 1;
      FilledKeys(m, items[..n], l[..n], x);
      assert l == l[..n] + [l[n]];
    }
  }

  lemma {:induction false} FilledNew(m: map<nat, nat>, items: seq<Item>, l: seq<nat>, k: nat)
    requires Indexed(items, l) && Increasing(l) && k < |l|
    ensures l[k] in Filled(m, items) && Filled(m, items)[l[k]] == items[k].pa
  {
    var n := |items| - 1;
    if k < n {
      FilledNew(m, items[..n], l[..n], k);
      assert l[k] < l[n];
    }
  }

  /**
   Reading a range inserts exactly its missing indices and touches no cached page, and
   the batches transfer each missing page once, in order, to the page now cached for it.
   */
  lemma {:induction false} ReadFillsTheMissing(m: map<nat, nat>, i: nat, end: nat, at: nat -> nat)
    requires i <= end
    ensures var m', l := AfterRead(m, i, end, at), MissingList(m, i, end);
            && (forall x :: x in m' <==> x in m || i <= x < end)
            && (forall x :: x in m ==> m'[x] == m[x])
            && (forall x :: x in l <==> i <= x < end && x !in m)
            && Increasing(l)
            && (forall k :: 0 <= k < |l| ==> l[k] in m')
            && Expand(Placed(Runs(m, i, end), 0, at)) == seq(|l|, k requires 0 <= k < |l| => Item(l[k], m'[l[k]]))
  {
    var items, l := Expand(Placed(Runs(m, i, end), 0, at)), MissingList(m, i, end);
    PagesAreTheMissing(m, i, end, 0, at);
    MissingIncreases(m, i, end);
    hide Expand, Placed, Runs, MissingList, Filled, NextCached;
    var m' := AfterRead(m, i, end, at);
    forall x: nat ensures (x in m' <==> x in m || x in l) && (x in m && x !in l ==> m'[x] == m[x]) {
      FilledKeys(m, items, l, x);
    }
    forall k | 0 <= k < |l| ensures l[k] in m' && items[k] == Item(l[k], m'[l[k]]) {
      FilledNew(m, items, l, k);
    }
  }
}
