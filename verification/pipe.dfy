/**
 The kernel pipe: a 512-byte ring with free-running 32-bit counters, and the blocking
 hand-shake of its readers and writers over two counting semaphores.

 `Pipe` is the ring in place; each of its methods is what `pipe_write` or `pipe_read`
 does between taking and releasing the pipe's lock. The functions `Fill`, `Taken`
 and the step machine in `PipeRuns` speak of the queue of bytes it refines.
 */
module PipeRing {

  const PIPESIZE: nat := 512
  const WRAP: nat := 0x1_0000_0000

  /**
   What a writer's critical section moves: bytes from position i on, until the queue
   is full, the request is served, or byte `fault` cannot be copied from user memory.
   */
  function Fill(q: seq<bv8>, src: seq<bv8>, i: nat, fault: nat): (r: (seq<bv8>, nat))
    requires i <= |src|
    ensures i <= r.1 <= |src| && r.0 == q + src[i..r.1]
    ensures r.1 == |src| || r.1 == fault || |r.0| == PIPESIZE
    ensures |q| <= PIPESIZE ==> |r.0| <= PIPESIZE
    ensures i <= fault ==> r.1 <= fault
    decreases |src| - i
  {
    if i == |src| || i == fault || |q| == PIPESIZE then
      assert q + src[i..i] == q;
      (q, i)
    else
      var r := Fill(q + [src[i]], src, i + 1, fault);
      assert src[i..r.1] == [src[i]] + src[i + 1..r.1];
      assert (q + [src[i]]) + src[i + 1..r.1] == q + ([src[i]] + src[i + 1..r.1]);
      r
  }

  /** How many bytes a reader's critical section takes. */
  function Taken(available: nat, n: nat, fault: nat): nat {
    var want := if n < available then n else available;
    if fault < want then fault else want
  }

  class Pipe {
    const data: array<bv8>
    var nread: nat
    var nwrite: nat
    ghost var written: seq<bv8>  // every byte ever stored
    ghost var taken: seq<bv8>    // every byte ever handed to a reader

    ghost predicate Valid()
      reads this, data
    {
      && data.Length == PIPESIZE
      && |taken| <= |written| <= |taken| + PIPESIZE
      && nread == |taken| % WRAP && nwrite == |written| % WRAP
      && taken == written[..|taken|]
      && (forall k :: |taken| <= k < |written| ==> data[k % PIPESIZE] == written[k])
    }

    /** The bytes in the pipe, oldest first. */
    ghost function Queue(): (q: seq<bv8>)
      requires Valid()
      reads this, data
    {
      written[|taken|..]
    }

    constructor ()
      ensures Valid() && written == [] && taken == [] && fresh(data)
    {
      data := new bv8[PIPESIZE];
      nread, nwrite := 0, 0;
      written, taken := [], [];
    }

    /** `PIPE_EMPTY` on the wrapped counters is emptiness. */
    method Empty() returns (r: bool)
      requires Valid()
      ensures r <==> Queue() == []
    {
      CountersAreExact(|taken|, |written|);
      r := nread == nwrite;
    }

    /** `PIPE_FULL` on the wrapped counters is fullness; the addition wraps at 32 bits. */
    method Full() returns (r: bool)
      requires Valid()
      ensures r <==> |Queue()| == PIPESIZE
    {
      CountersAreExact(|taken|, |written|);
      r := nwrite == (nread + PIPESIZE) % WRAP;
    }

    /** One store and one counter increment of `pipe_write`. */
    method Store(ch: bv8)
      requires Valid() && |Queue()| < PIPESIZE
      modifies this`nwrite, this`written, data
      ensures Valid() && written == old(written) + [ch]
      ensures Queue() == old(Queue()) + [ch]
    {
      ghost var w := |written|;
      SlotIsExact(w);
      data[nwrite % PIPESIZE] := ch;
      SlotsDiffer(|taken|, w);
      nwrite := (nwrite + 1) % WRAP;
      written := written + [ch];
      WrapStep(w);
    }

    /** One load and one counter increment of `pipe_read`. */
    method Load() returns (ch: bv8)
      requires Valid() && Queue() != []
      modifies this`nread, this`taken
      ensures Valid() && taken == old(taken) + [ch]
      ensures [ch] + Queue() == old(Queue())
    {
      ghost var r := |taken|;
      SlotIsExact(r);
      ch := data[nread % PIPESIZE];
      nread := (nread + 1) % WRAP;
      taken := taken + [ch];
      WrapStep(r);
    }

    /**
     The copying loop of `pipe_write` while the lock is held; fault is the first byte that
     cannot be copied in.
     */
    method WriteSection(src: seq<bv8>, start: nat, fault: nat) returns (i: nat)
      requires Valid() && start <= |src|
      modifies this`nwrite, this`written, data
      ensures Valid() && start <= i <= |src| && Queue() == old(Queue()) + src[start..i]
      ensures i == |src| || i == fault || |Queue()| == PIPESIZE
      ensures start <= fault ==> i <= fault
      ensures (Queue(), i) == Fill(old(Queue()), src, start, fault)
    {
      i := start;
      while i < |src|
        invariant Valid() && start <= i <= |src|
        invariant Fill(old(Queue()), src, start, fault) == Fill(Queue(), src, i, fault)
        decreases |src| - i
      {
        var full := Full();
        if full || i == fault {
          return;
        }
        Store(src[i]);
        i := i + 1;
      }
    }

    /**
     The copying loop of `pipe_read`: it takes no more than was asked for, and stops short only
     at a byte that cannot be copied out, which stays in the pipe, or when the pipe is empty.
     */
    method ReadSection(n: nat, fault: nat) returns (out: seq<bv8>)
      requires Valid()
      modifies this`nread, this`taken
      ensures Valid() && out + Queue() == old(Queue())
      ensures |out| <= n && |out| <= fault
      ensures |out| == n || |out| == fault || Queue() == []
      ensures |out| == Taken(|old(Queue())|, n, fault)
    {
      out := [];
      var i := 0;
      while i < n
        invariant Valid() && i == |out| <= n && out + Queue() == old(Queue()) && i <= fault
        decreases n - i
      {
        var empty := Empty();
        if empty || i == fault {
          return;
        }
        var ch := Load();
        out := out + [ch];
        i := i + 1;
      }
    }
  }

  /** Within one ring of each other, two counters compare modulo 2^32 as they do in full. */
  lemma CountersAreExact(r: nat, w: nat)
    requires r <= w <= r + PIPESIZE
    ensures r % WRAP == w % WRAP <==> r == w
    ensures w % WRAP == (r % WRAP + PIPESIZE) % WRAP <==> w == r + PIPESIZE
  {
    var a, b := r / WRAP, w / WRAP;
    assert r == a * WRAP + r % WRAP && w == b * WRAP + w % WRAP;
  }

  /** 512 divides 2^32, so wrapping the counter does not move its slot. */
  lemma SlotIsExact(k: nat)
    ensures (k % WRAP) % PIPESIZE == k % PIPESIZE
  {
    var a := k / WRAP;
    assert k == a * WRAP + k % WRAP;
    assert a * WRAP == PIPESIZE * (a * 0x80_0000);
    assert (PIPESIZE * (a * 0x80_0000) + k % WRAP) % PIPESIZE == (k % WRAP) % PIPESIZE;
  }

  lemma WrapStep(k: nat)
    ensures (k % WRAP + 1) % WRAP == (k + 1) % WRAP
  {
  }

  /** No unread byte shares a slot with the next free one. */
  lemma SlotsDiffer(r: nat, w: nat)
    requires r <= w < r + PIPESIZE
    ensures forall k :: r <= k < w ==> k % PIPESIZE != w % PIPESIZE
  {
  }
}
