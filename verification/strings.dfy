/**
 The user library's string routines, which work a 64-bit word at a time where the
 alignment allows it. Memory is an array of bytes whose index is the address; it ends
 at a word boundary, and nothing past the last word of the string need exist.
 */
module WordStrings {
  import opened Common

  const SS: nat := 8
  const ONES: bv64 := 0x0101_0101_0101_0101
  const HIGHS: bv64 := 0x8080_8080_8080_8080

  /** HASZERO */
  function HasZero(x: bv64): bool { (x - ONES) & !x & HIGHS != 0 }

  function Repeat(c: bv8): bv64 { ONES * (c as bv64) }

  function Xor64(x: bv64, y: bv64): bv64 { x ^ y }

  /** HASZERO of the word against the byte repeated eight times. */
  function HasByte(x: bv64, c: bv8): bool { HasZero(Xor64(x, Repeat(c))) }

  function Cat8(a: bv8, b: bv8): bv16 { (a as bv16) | ((b as bv16) << 8) }

  function Cat16(a: bv16, b: bv16): bv32 { (a as bv32) | ((b as bv32) << 16) }

  function Cat32(a: bv32, b: bv32): bv64 { (a as bv64) | ((b as bv64) << 32) }

  /** Eight bytes as a little-endian word. */
  function Pack(b0: bv8, b1: bv8, b2: bv8, b3: bv8, b4: bv8, b5: bv8, b6: bv8, b7: bv8): bv64 {
    Cat32(Cat16(Cat8(b0, b1), Cat8(b2, b3)), Cat16(Cat8(b4, b5), Cat8(b6, b7)))
  }

  function WordAt(m: seq<bv8>, w: nat): bv64
    requires w + SS <= |m|
  {
    Pack(m[w], m[w + 1], m[w + 2], m[w + 3], m[w + 4], m[w + 5], m[w + 6], m[w + 7])
  }

  function Low(x: bv64): bv8 { (x & 0xff) as bv8 }

  /** The bytes of a word, lowest address first. */
  function Bytes(x: bv64): (bs: seq<bv8>)
    ensures |bs| == SS
  {
    Eight(Low(x), Low(x >> 8), Low(x >> 16), Low(x >> 24), Low(x >> 32), Low(x >> 40), Low(x >> 48), Low(x >> 56))
  }

  function Eight(b0: bv8, b1: bv8, b2: bv8, b3: bv8, b4: bv8, b5: bv8, b6: bv8, b7: bv8): (s: seq<bv8>)
    ensures |s| == SS
  {
    [b0, b1, b2, b3, b4, b5, b6, b7]
  }

  // ------------------------------------------------------------- bit facts

  lemma ZeroByte(b0: bv8, b1: bv8, b2: bv8, b3: bv8, b4: bv8, b5: bv8, b6: bv8, b7: bv8)
    ensures HasZero(Pack(b0, b1, b2, b3, b4, b5, b6, b7))
       <==> b0 == 0 || b1 == 0 || b2 == 0 || b3 == 0 || b4 == 0 || b5 == 0 || b6 == 0 || b7 == 0
  {
  }

  ghost function Xor8(a: bv8, b: bv8): bv8 { a ^ b }
  ghost function Xor16(a: bv16, b: bv16): bv16 { a ^ b }
  ghost function Xor32(a: bv32, b: bv32): bv32 { a ^ b }

  lemma XorCat8(a: bv8, b: bv8, c: bv8, d: bv8)
    ensures Xor16(Cat8(a, b), Cat8(c, d)) == Cat8(Xor8(a, c), Xor8(b, d))
  {
  }

  lemma XorCat16(a: bv16, b: bv16, c: bv16, d: bv16)
    ensures Xor32(Cat16(a, b), Cat16(c, d)) == Cat16(Xor16(a, c), Xor16(b, d))
  {
  }

  lemma XorCat32(a: bv32, b: bv32, c: bv32, d: bv32)
    ensures Xor64(Cat32(a, b), Cat32(c, d)) == Cat32(Xor32(a, c), Xor32(b, d))
  {
  }

  /** `ONES * c` repeats the byte. */
  lemma RepeatIs(c: bv8)
    ensures Repeat(c) == Pack(c, c, c, c, c, c, c, c)
  {
  }

  lemma SameByte(b: bv8, c: bv8)
    ensures Xor8(b, c) == 0 <==> b == c
  {
  }

  /** Exclusive-or with the repeated byte makes exactly the matching bytes zero. */
  lemma MatchingByte(b0: bv8, b1: bv8, b2: bv8, b3: bv8, b4: bv8, b5: bv8, b6: bv8, b7: bv8, c: bv8)
    ensures HasByte(Pack(b0, b1, b2, b3, b4, b5, b6, b7), c)
       <==> b0 == c || b1 == c || b2 == c || b3 == c || b4 == c || b5 == c || b6 == c || b7 == c
  {
    hide HasZero, Repeat, Xor64, Xor32, Xor16, Xor8, Cat8, Cat16, Cat32;
    RepeatIs(c);
    var k := Cat8(c, c);
    var kk := Cat16(k, k);
    XorCat32(Cat16(Cat8(b0, b1), Cat8(b2, b3)), Cat16(Cat8(b4, b5), Cat8(b6, b7)), kk, kk);
    XorCat16(Cat8(b0, b1), Cat8(b2, b3), k, k);
    XorCat16(Cat8(b4, b5), Cat8(b6, b7), k, k);
    XorCat8(b0, b1, c, c);
    XorCat8(b2, b3, c, c);
    XorCat8(b4, b5, c, c);
    XorCat8(b6, b7, c, c);
    ZeroByte(Xor8(b0, c), Xor8(b1, c), Xor8(b2, c), Xor8(b3, c), Xor8(b4, c), Xor8(b5, c), Xor8(b6, c), Xor8(b7, c));
    SameByte(b0, c);
    SameByte(b1, c);
    SameByte(b2, c);
    SameByte(b3, c);
    SameByte(b4, c);
    SameByte(b5, c);
    SameByte(b6, c);
    SameByte(b7, c);
  }

  lemma UnpackBits(b0: bv8, b1: bv8, b2: bv8, b3: bv8, b4: bv8, b5: bv8, b6: bv8, b7: bv8)
    ensures var x := Pack(b0, b1, b2, b3, b4, b5, b6, b7);
            && Low(x) == b0 && Low(x >> 8) == b1 && Low(x >> 16) == b2 && Low(x >> 24) == b3
            && Low(x >> 32) == b4 && Low(x >> 40) == b5 && Low(x >> 48) == b6 && Low(x >> 56) == b7
  {
  }

  lemma Unpack(b0: bv8, b1: bv8, b2: bv8, b3: bv8, b4: bv8, b5: bv8, b6: bv8, b7: bv8)
    ensures Bytes(Pack(b0, b1, b2, b3, b4, b5, b6, b7)) == Eight(b0, b1, b2, b3, b4, b5, b6, b7)
  {
    hide Pack, Low, Eight;
    UnpackBits(b0, b1, b2, b3, b4, b5, b6, b7);
  }

  // -------------------------------------------------- words against bytes

  /** Some byte of the word at `w` is `c`. */
  ghost predicate Occurs(m: seq<bv8>, w: nat, c: bv8)
    requires w + SS <= |m|
  {
    exists i :: w <= i < w + SS && m[i] == c
  }

  lemma OccursIs(m: seq<bv8>, w: nat, c: bv8)
    requires w + SS <= |m|
    ensures Occurs(m, w, c) <==>
              m[w] == c || m[w + 1] == c || m[w + 2] == c || m[w + 3] == c
              || m[w + 4] == c || m[w + 5] == c || m[w + 6] == c || m[w + 7] == c
  {
  }

  /** HASZERO is nonzero exactly when some byte of the word is zero. */
  lemma HasZeroIsExact(m: seq<bv8>, w: nat)
    requires w + SS <= |m|
    ensures HasZero(WordAt(m, w)) <==> Occurs(m, w, 0)
  {
    hide HasZero, Pack;
    OccursIs(m, w, 0);
    ZeroByte(m[w], m[w + 1], m[w + 2], m[w + 3], m[w + 4], m[w + 5], m[w + 6], m[w + 7]);
  }

  lemma HasByteIsExact(m: seq<bv8>, w: nat, c: bv8)
    requires w + SS <= |m|
    ensures HasByte(WordAt(m, w), c) <==> Occurs(m, w, c)
  {
    hide HasByte, Pack;
    OccursIs(m, w, c);
    MatchingByte(m[w], m[w + 1], m[w + 2], m[w + 3], m[w + 4], m[w + 5], m[w + 6], m[w + 7], c);
  }

  lemma BytesOfWord(m: seq<bv8>, w: nat)
    requires w + SS <= |m|
    ensures Bytes(WordAt(m, w)) == m[w..w + SS]
  {
    hide Pack, Bytes;
    Unpack(m[w], m[w + 1], m[w + 2], m[w + 3], m[w + 4], m[w + 5], m[w + 6], m[w + 7]);
  }

  function LoadWord(m: array<bv8>, w: nat): (x: bv64)
    requires w + SS <= m.Length
    reads m
    ensures x == WordAt(m[..], w)
  {
    Pack(m[w], m[w + 1], m[w + 2], m[w + 3], m[w + 4], m[w + 5], m[w + 6], m[w + 7])
  }

  /** The string at `s` has length `n`. */
  ghost predicate IsString(m: seq<bv8>, s: nat, n: nat) {
    s + n < |m| && m[s + n] == 0 && forall i :: s <= i < s + n ==> m[i] != 0
  }

  // ------------------------------------------------------------- searching

  method StrLen(m: array<bv8>, s: nat, ghost n: nat) returns (len: nat)
    requires m.Length % SS == 0 && IsString(m[..], s, n)
    ensures len == n
  {
    hide HasZero, WordAt, LoadWord;
    var p := s;
    while p % SS != 0
      invariant s <= p <= s + n
      decreases s + n - p
    {
      if m[p] == 0 {
        return p - s;
      }
      p := p + 1;
    }
    var w := p;
    ZeroIsSeen(m[..], w, s + n);
    while !HasZero(LoadWord(m, w))
      invariant w % SS == 0 && s <= w <= s + n && (!HasZero(LoadWord(m, w)) ==> w + SS <= s + n)
      decreases s + n - w
    {
      w := w + SS;
      ZeroIsSeen(m[..], w, s + n);
    }
    p := w;
    while m[p] != 0
      invariant s <= p <= s + n
      decreases s + n - p
    {
      p := p + 1;
    }
    return p - s;
  }

  /** The word loop of `memchr`: whole words without the byte are skipped. */
  method SkipWords(m: array<bv8>, p: nat, c: bv8, n: nat) returns (w: nat, left: nat)
    requires m.Length % SS == 0 && p % SS == 0 && n > 0
    requires p + n <= m.Length || exists i :: p <= i < m.Length && i < p + n && m[i] == c
    ensures p <= w <= m.Length && w + left == p + n && (left > 0 ==> w < m.Length)
    ensures forall i :: p <= i < w ==> m[i] != c
  {
    hide HasByte, WordAt, LoadWord;
    w, left := p, n;
    HasByteIsExact(m[..], w, c);
    while left >= SS && !HasByte(LoadWord(m, w), c)
      invariant w % SS == 0 && p <= w <= m.Length && w + left == p + n && (left > 0 ==> w + SS <= m.Length)
      invariant forall i :: p <= i < w ==> m[i] != c
      invariant left > 0 ==> (HasByte(LoadWord(m, w), c) <==> Occurs(m[..], w, c))
      decreases left
    {
      assert forall i :: w <= i < w + SS ==> m[..][i] != c;
      w, left := w + SS, left - SS;
      if left > 0 {
        HasByteIsExact(m[..], w, c);
      }
    }
  }

  /**
   The first of `n` bytes from `s` equal to `c`; memory need not extend past the word of the
   first match.
   */
  method MemChr(m: array<bv8>, s: nat, c: bv8, n: nat) returns (r: Option<nat>)
    requires m.Length % SS == 0
    requires s + n <= m.Length || exists i :: s <= i < m.Length && i < s + n && m[i] == c
    ensures r == None ==> s + n <= m.Length && forall i :: s <= i < s + n ==> m[i] != c
    ensures r.Some? ==> s <= r.value < m.Length && r.value < s + n && m[r.value] == c
    ensures r.Some? ==> forall i :: s <= i < r.value ==> m[i] != c
  {
    var p, left := s, n;
    while p % SS != 0 && left > 0 && m[p] != c
      invariant s <= p && p + left == s + n && (left > 0 ==> p < m.Length)
      invariant p <= m.Length && forall i :: s <= i < p ==> m[i] != c
      decreases left
    {
      p, left := p + 1, left - 1;
    }
    if left > 0 && m[p] != c {
      p, left := SkipWords(m, p, c, left);
    }
    while left > 0 && m[p] != c
      invariant s <= p && p + left == s + n && (left > 0 ==> p < m.Length)
      invariant p <= m.Length && forall i :: s <= i < p ==> m[i] != c
      decreases left
    {
      p, left := p + 1, left - 1;
    }
    return if left > 0 then Some(p) else None;
  }

  /** The length of the string at `s`, or `n` if it is longer. */
  method StrNLen(m: array<bv8>, s: nat, n: nat) returns (len: nat)
    requires m.Length % SS == 0
    requires s + n <= m.Length || exists i :: s <= i < m.Length && i < s + n && m[i] == 0
    ensures len <= n && forall i :: s <= i < s + len ==> i < m.Length && m[i] != 0
    ensures len < n ==> s + len < m.Length && m[s + len] == 0
  {
    var p := MemChr(m, s, 0, n);
    return if p.Some? then p.value - s else n;
  }

  // --------------------------------------------------------------- copying

  /** The first `k` bytes from `s` are at `d`, and nothing else changed. */
  ghost predicate Copied(m: seq<bv8>, m0: seq<bv8>, d: nat, s: nat, k: nat) {
    && |m| == |m0| && d + k <= |m| && s + k <= |m|
    && (forall i :: d <= i < d + k ==> m[i] == m0[s + (i - d)])
    && (forall i :: 0 <= i < |m| && !(d <= i < d + k) ==> m[i] == m0[i])
  }

  ghost predicate Apart(d: nat, n: nat, s: nat, k: nat) { d + n <= s || s + k <= d }

  lemma CopyByte(m: seq<bv8>, m0: seq<bv8>, d: nat, s: nat, k: nat)
    requires Copied(m, m0, d, s, k) && d + k < |m| && s + k < |m|
    ensures Copied(m[d + k := m0[s + k]], m0, d, s, k + 1)
  {
  }

  lemma CopyWord(m: seq<bv8>, m0: seq<bv8>, m': seq<bv8>, d: nat, s: nat, k: nat)
    requires Copied(m, m0, d, s, k) && d + k + SS <= |m| && s + k + SS <= |m|
    requires m' == m[..d + k] + m0[s + k..s + k + SS] + m[d + k + SS..]
    ensures Copied(m', m0, d, s, k + SS)
  {
  }

  method StoreWord(m: array<bv8>, w: nat, x: bv64)
    requires w + SS <= m.Length
    modifies m
    ensures m[..] == old(m[..w]) + Bytes(x) + old(m[w + SS..])
  {
    var bs := Bytes(x);
    hide Bytes;
    var i := 0;
    while i < SS
      invariant 0 <= i <= SS && m[..] == old(m[..w]) + bs[..i] + old(m[w + i..])
    {
      m[w + i] := bs[i];
      i := i + 1;
    }
    assert bs[..SS] == bs;
  }

  /** What `strcpy` and its parts assume of source and destination. */
  ghost predicate CanCopy(m: seq<bv8>, d: nat, s: nat, n: nat) {
    |m| % SS == 0 && IsString(m, s, n) && d + n + 1 <= |m| && Apart(d, n + 1, s, n + 1)
  }

  /** Bytes until the source is aligned; `done` if the terminator came first. */
  method CopyToAlignment(m: array<bv8>, d: nat, s: nat, ghost n: nat) returns (k: nat, done: bool)
    requires CanCopy(m[..], d, s, n)
    modifies m
    ensures k <= n && Copied(m[..], old(m[..]), d, s, if done then n + 1 else k)
    ensures if done then k == n else (s + k) % SS == 0
  {
    hide Copied;
    ghost var m0 := m[..];
    NothingCopied(m0, d, s);
    k, done := 0, false;
    while (s + k) % SS != 0
      invariant k <= n && Copied(m[..], m0, d, s, k)
      decreases n - k
    {
      SourceIntact(m[..], m0, d, s, k, n);
      CopyByte(m[..], m0, d, s, k);
      m[d + k] := m[s + k];
      if m[d + k] == 0 {
        return k, true;
      }
      k := k + 1;
    }
  }

  method MoveWord(m: array<bv8>, d: nat, s: nat, k: nat, ghost n: nat, ghost m0: seq<bv8>)
    requires Copied(m[..], m0, d, s, k) && k + SS <= n && s + n <= m.Length && d + n <= m.Length && Apart(d, n, s, n)
    modifies m
    ensures Copied(m[..], m0, d, s, k + SS)
  {
    hide Bytes, WordAt, LoadWord;
    ghost var before := m[..];
    BytesOfWord(before, s + k);
    assert before[s + k..s + k + SS] == m0[s + k..s + k + SS];
    hide Copied;
    StoreWord(m, d + k, LoadWord(m, s + k));
    CopyWord(before, m0, m[..], d, s, k);
  }

  /** Whole words until one holds the terminator. */
  method CopyWords(m: array<bv8>, d: nat, s: nat, k0: nat, ghost n: nat, ghost m0: seq<bv8>) returns (k: nat)
    requires CanCopy(m0, d, s, n) && k0 <= n && (s + k0) % SS == 0 && Copied(m[..], m0, d, s, k0)
    modifies m
    ensures k <= n && Copied(m[..], m0, d, s, k)
  {
    hide Copied, HasZero, WordAt, LoadWord, Occurs;
    k := k0;
    SourceIntact(m[..], m0, d, s, k, n);
    ZeroIsSeen(m[..], s + k, s + n);
    while !HasZero(LoadWord(m, s + k))
      invariant k <= n && (s + k) % SS == 0 && Copied(m[..], m0, d, s, k)
      invariant !HasZero(LoadWord(m, s + k)) ==> k + SS <= n
      decreases n - k
    {
      MoveWord(m, d, s, k, n, m0);
      k := k + SS;
      SourceIntact(m[..], m0, d, s, k, n);
      ZeroIsSeen(m[..], s + k, s + n);
    }
  }

  lemma ZeroIsSeen(m: seq<bv8>, w: nat, t: nat)
    requires |m| % SS == 0 && w % SS == 0 && w <= t < |m| && m[t] == 0
    ensures w + SS <= |m| && (!HasZero(WordAt(m, w)) ==> w + SS <= t)
  {
    hide HasZero, WordAt;
    HasZeroIsExact(m, w);
    if t < w + SS {
      assert Occurs(m, w, 0);
    }
  }

  /** `strcpy`: the exact copy with its terminator; the result points at the copied terminator. */
  method StrCpy(m: array<bv8>, d: nat, s: nat, ghost n: nat) returns (e: nat)
    requires CanCopy(m[..], d, s, n)
    modifies m
    ensures e == d + n && Copied(m[..], old(m[..]), d, s, n + 1)
  {
    hide Copied;
    ghost var m0 := m[..];
    NothingCopied(m0, d, s);
    var k := 0;
    if s % SS == d % SS {
      var done;
      k, done := CopyToAlignment(m, d, s, n);
      if done {
        return d + k;
      }
      k := CopyWords(m, d, s, k, n, m0);
    }
    SourceIntact(m[..], m0, d, s, k, n);
    CopyByte(m[..], m0, d, s, k);
    m[d + k] := m[s + k];
    while m[d + k] != 0
      invariant k <= n && Copied(m[..], m0, d, s, k + 1) && m[d + k] == m0[s + k]
      decreases n - k
    {
      k := k + 1;
      SourceIntact(m[..], m0, d, s, k, n);
      CopyByte(m[..], m0, d, s, k);
      m[d + k] := m[s + k];
    }
    return d + k;
  }

  lemma NothingCopied(m: seq<bv8>, d: nat, s: nat)
    requires d <= |m| && s <= |m|
    ensures Copied(m, m, d, s, 0)
  {
  }

  lemma SourceIntact(m: seq<bv8>, m0: seq<bv8>, d: nat, s: nat, k: nat, n: nat)
    requires Copied(m, m0, d, s, k) && k <= n && s + n < |m0| && Apart(d, n + 1, s, n + 1)
    ensures |m| == |m0| && forall i :: s <= i <= s + n ==> m[i] == m0[i]
  {
  }

  // ------------------------------------------------------- bounded copying

  /** The first `k` bytes from `s` are at `d`, and nothing outside the `n` bytes from `d` changed. */
  ghost predicate Partial(m: seq<bv8>, m0: seq<bv8>, d: nat, s: nat, k: nat, n: nat) {
    && |m| == |m0| && k <= n && d + n <= |m| && s + k <= |m|
    && (forall i :: d <= i < d + k ==> m[i] == m0[s + (i - d)])
    && (forall i :: 0 <= i < |m| && !(d <= i < d + n) ==> m[i] == m0[i])
  }

  /** `len` is the length of the source string, or `n` if that is smaller. */
  ghost predicate CanCopyN(m: seq<bv8>, d: nat, s: nat, n: nat, len: nat) {
    && |m| % SS == 0 && len <= n && d + n <= |m| && s + len <= |m|
    && (forall i :: s <= i < s + len ==> m[i] != 0)
    && (len < n ==> s + len < |m| && m[s + len] == 0)
    && Apart(d, n, s, if len < n then len + 1 else n)
  }

  lemma PartialByte(m: seq<bv8>, m0: seq<bv8>, d: nat, s: nat, k: nat, n: nat)
    requires Partial(m, m0, d, s, k, n) && k < n && s + k < |m|
    ensures Partial(m[d + k := m0[s + k]], m0, d, s, k + 1, n) && Partial(m[d + k := m0[s + k]], m0, d, s, k, n)
  {
  }

  lemma PartialWord(m: seq<bv8>, m0: seq<bv8>, m': seq<bv8>, d: nat, s: nat, k: nat, n: nat)
    requires Partial(m, m0, d, s, k, n) && k + SS <= n && s + k + SS <= |m|
    requires m' == m[..d + k] + m0[s + k..s + k + SS] + m[d + k + SS..]
    ensures Partial(m', m0, d, s, k + SS, n)
  {
  }

  lemma SourceIntactN(m: seq<bv8>, m0: seq<bv8>, d: nat, s: nat, k: nat, n: nat, len: nat)
    requires Partial(m, m0, d, s, k, n) && CanCopyN(m0, d, s, n, len)
    ensures |m| == |m0|
    ensures forall i :: s <= i < s + len ==> m[i] == m0[i]
    ensures len < n ==> m[s + len] == m0[s + len] == 0
  {
  }

  /** A byte loop of `strncpy`: to the end of the string, of the request, or of the unaligned part. */
  method CopyBytes(m: array<bv8>, d: nat, s: nat, k0: nat, n: nat, untilAligned: bool,
                   ghost len: nat, ghost m0: seq<bv8>)
    returns (k: nat)
    requires CanCopyN(m0, d, s, n, len) && k0 <= len && Partial(m[..], m0, d, s, k0, n)
    modifies m
    ensures k0 <= k <= len && Partial(m[..], m0, d, s, k, n)
    ensures k == len || (untilAligned && (s + k) % SS == 0)
  {
    hide Partial;
    k := k0;
    while k < n && (!untilAligned || (s + k) % SS != 0)
      invariant k0 <= k <= len && Partial(m[..], m0, d, s, k, n)
      decreases n - k
    {
      SourceIntactN(m[..], m0, d, s, k, n, len);
      PartialByte(m[..], m0, d, s, k, n);
      m[d + k] := m[s + k];
      if m[d + k] == 0 {
        return;
      }
      k := k + 1;
    }
  }

  method MoveWordN(m: array<bv8>, d: nat, s: nat, k: nat, n: nat, ghost len: nat, ghost m0: seq<bv8>)
    requires CanCopyN(m0, d, s, n, len) && Partial(m[..], m0, d, s, k, n) && k + SS <= len
    modifies m
    ensures Partial(m[..], m0, d, s, k + SS, n)
  {
    hide Bytes, WordAt, LoadWord;
    SourceIntactN(m[..], m0, d, s, k, n, len);
    ghost var before := m[..];
    BytesOfWord(before, s + k);
    assert before[s + k..s + k + SS] == m0[s + k..s + k + SS];
    hide Partial, CanCopyN;
    StoreWord(m, d + k, LoadWord(m, s + k));
    PartialWord(before, m0, m[..], d, s, k, n);
  }

  lemma WordIsSafe(m: seq<bv8>, m0: seq<bv8>, d: nat, s: nat, k: nat, n: nat, len: nat)
    requires Partial(m, m0, d, s, k, n) && CanCopyN(m0, d, s, n, len) && (s + k) % SS == 0 && k <= len && k + SS <= n
    ensures s + k + SS <= |m| && (!HasZero(WordAt(m, s + k)) ==> k + SS <= len)
  {
    hide HasZero, WordAt;
    SourceIntactN(m, m0, d, s, k, n, len);
    if len < n {
      ZeroIsSeen(m, s + k, s + len);
    }
  }

  method CopyWordsN(m: array<bv8>, d: nat, s: nat, k0: nat, n: nat, ghost len: nat, ghost m0: seq<bv8>) returns (k: nat)
    requires CanCopyN(m0, d, s, n, len) && k0 <= len && (s + k0) % SS == 0 && Partial(m[..], m0, d, s, k0, n)
    modifies m
    ensures k0 <= k <= len && Partial(m[..], m0, d, s, k, n)
  {
    hide Partial, CanCopyN, HasZero, WordAt, LoadWord;
    k := k0;
    if k + SS <= n {
      WordIsSafe(m[..], m0, d, s, k, n, len);
    }
    while n - k >= SS && !HasZero(LoadWord(m, s + k))
      invariant k0 <= k <= len && (s + k) % SS == 0 && Partial(m[..], m0, d, s, k, n)
      invariant k + SS <= n ==> s + k + SS <= m.Length && (!HasZero(LoadWord(m, s + k)) ==> k + SS <= len)
      decreases n - k
    {
      MoveWordN(m, d, s, k, n, len, m0);
      k := k + SS;
      if k + SS <= n {
        WordIsSafe(m[..], m0, d, s, k, n, len);
      }
    }
  }

  method MemSet(m: array<bv8>, d: nat, c: bv8, n: nat)
    requires d + n <= m.Length
    modifies m
    ensures forall i :: 0 <= i < m.Length ==> m[i] == if d <= i < d + n then c else old(m[i])
  {
    var i := 0;
    while i < n
      invariant 0 <= i <= n
      invariant forall j :: 0 <= j < m.Length ==> m[j] == if d <= j < d + i then c else old(m[j])
    {
      m[d + i] := c;
      i := i + 1;
    }
  }

  /**
   `strncpy`: the exact copy, zero padding up to `n`, nothing else; the result points after
   the copied bytes.
   */
  method StrNCpy(m: array<bv8>, d: nat, s: nat, n: nat, ghost len: nat) returns (e: nat)
    requires CanCopyN(m[..], d, s, n, len)
    modifies m
    ensures e == d + len && Partial(m[..], old(m[..]), d, s, len, n)
    ensures forall i :: d + len <= i < d + n ==> m[i] == 0
  {
    ghost var m0 := m[..];
    var k := 0;
    if s % SS == d % SS {
      k := CopyBytes(m, d, s, 0, n, true, len, m0);
      SourceIntactN(m[..], m0, d, s, k, n, len);
      if k == n || m[s + k] == 0 {
        MemSet(m, d + k, 0, n - k);
        return d + k;
      }
      k := CopyWordsN(m, d, s, k, n, len, m0);
    }
    k := CopyBytes(m, d, s, k, n, false, len, m0);
    MemSet(m, d + k, 0, n - k);
    return d + k;
  }
}
