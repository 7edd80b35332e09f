/**
 The SD-card checksum of section 4.5 of the SD Physical Layer Simplified
 Specification: the bit-serial division `calculate_crc16` against the
 byte-at-a-time update `crc16`, and what the checksum detects.
 */
module Crc {

  // -------------------------------------------------------------- the code

  /** One round of the inner loop: subtract the generator if the top bit is set, then shift. */
  function Round(temp: bv32): bv32 {
    (if temp & 0x80000000 != 0 then temp ^ 0x88108000 else temp) << 1
  }

  /** `crc16`: the byte-wise update, one stage per statement. */
  function Update(crc: bv16, data: bv8): bv16 {
    Mix5(Mix12(Mix4(Enter(crc, data))))
  }

  function Enter(crc: bv16, data: bv8): bv16 { (((crc >> 8) & 0xff) | (crc << 8)) ^ (data as bv16) }

  function Mix4(crc: bv16): bv16 { crc ^ (((crc >> 4) & 0xff) & 0xf) }

  function Mix12(crc: bv16): bv16 { crc ^ (crc << 12) }

  function Mix5(crc: bv16): bv16 { crc ^ ((crc & 0xff) << 5) }

  /** The byte-wise checksum of a message, starting from zero. */
  function Fold(p: seq<bv8>): bv16 {
    if p == [] then 0 else Update(Fold(p[..|p| - 1]), p[|p| - 1])
  }

  /** The inner loop of `calculate_crc16`. */
  method EightRounds(t: bv32) returns (temp: bv32)
    ensures temp == Iterate(Round, t, 8)
  {
    hide Round;
    temp := t;
    var j := 0;
    while j < 8
      invariant 0 <= j <= 8 && Iterate(Round, t, 8) == Iterate(Round, temp, 8 - j)
    {
      temp := Round(temp);
      j := j + 1;
    }
  }

  function Pack(a: bv8, b: bv8): bv32 { ((a as bv32) << 24) | ((b as bv32) << 16) }

  function AddThird(temp: bv32, c: bv8): bv32 { temp | ((c as bv32) << 8) }

  function AddFourth(temp: bv32, d: bv8): bv32 { temp | (d as bv32) }

  function Upper(temp: bv32): bv16 { (temp >> 16) as bv16 }

  /**
   `calculate_crc16` over the first len bytes of p. The code reads p[1] whenever
   len is not zero, so that byte must exist even for a one-byte message; it is also
   the only input on which the two forms can disagree.
   */
  method CalculateCrc16(p: seq<bv8>, len: nat) returns (crc: bv16)
    requires len <= |p| && (len != 0 ==> |p| >= 2)
    ensures len != 1 ==> crc == Fold(p[..len])
    ensures len == 1 ==> (crc == Fold(p[..1]) <==> p[1] == 0)
  {
    hide Window, Update, AddFourth, AddThird, Pack, Upper, Round;
    ghost var q := if len == 1 then p[..2] else p[..len];
    var temp: bv32 := 0;
    if len != 0 {
      temp := Pack(p[0], p[1]);
    }
    if len > 2 {
      temp := AddThird(temp, p[2]);
    }
    StartWindow(0, At(q, 0), At(q, 1), At(q, 2), 0);
    EmptyWindow();
    var i := 3;
    while i <= len + 2
      invariant 3 <= i <= len + 3
      invariant temp == Window(Fold(q[..i - 3]), At(q, i - 3), At(q, i - 2), At(q, i - 1), 0)
    {
      ghost var k := i - 3;
      ghost var c := Fold(q[..k]);
      if i < len {
        LastByte(c, At(q, k), At(q, k + 1), At(q, k + 2), 0, p[i]);
        temp := AddFourth(temp, p[i]);
      }
      temp := EightRounds(temp);
      ByteStep(c, At(q, k), At(q, k + 1), At(q, k + 2), At(q, k + 3));
      assert q[..k + 1][..k] == q[..k];
      i := i + 1;
    }
    FinalWindow(Fold(q[..len]), At(q, len), 0);
    crc := Upper(temp);
    assert q[..len] == p[..len];
  }

  /** The message byte at i; zero past the end. */
  ghost function At(p: seq<bv8>, i: nat): bv8 {
    if i < |p| then p[i] else 0
  }

  /** The 32-bit register: the checksum so far over the next two bytes, then two more bytes. */
  ghost function Window(crc: bv16, a: bv8, b: bv8, c: bv8, d: bv8): bv32 {
    (((crc ^ (((a as bv16) << 8) | (b as bv16))) as bv32) << 16) | ((c as bv32) << 8) | (d as bv32)
  }

  // Each definition once as an equation, so that facts about bits can be used without
  // unfolding. A fact about bits names its intermediate words and concludes an equality
  // of two of them.

  lemma WindowIs(crc: bv16, a: bv8, b: bv8, c: bv8, d: bv8)
    ensures Window(crc, a, b, c, d)
         == (((crc ^ (((a as bv16) << 8) | (b as bv16))) as bv32) << 16) | ((c as bv32) << 8) | (d as bv32)
  {
  }

  lemma PackIs(a: bv8, b: bv8)
    ensures Pack(a, b) == ((a as bv32) << 24) | ((b as bv32) << 16)
  {
  }

  lemma AddThirdIs(t: bv32, c: bv8)
    ensures AddThird(t, c) == t | ((c as bv32) << 8)
  {
  }

  lemma AddFourthIs(t: bv32, d: bv8)
    ensures AddFourth(t, d) == t | (d as bv32)
  {
  }

  lemma UpperIs(t: bv32)
    ensures Upper(t) == (t >> 16) as bv16
  {
  }

  lemma StartBits(crc: bv16, a: bv8, b: bv8, c: bv8, d: bv8, p: bv32, t: bv32, w: bv32)
    requires crc == 0 && d == 0
    requires p == ((a as bv32) << 24) | ((b as bv32) << 16)
    requires t == p | ((c as bv32) << 8)
    requires w == (((crc ^ (((a as bv16) << 8) | (b as bv16))) as bv32) << 16) | ((c as bv32) << 8) | (d as bv32)
    ensures t == w
    ensures c == 0 ==> t == p
  {
  }

  lemma StartWindow(crc: bv16, a: bv8, b: bv8, c: bv8, d: bv8)
    requires crc == 0 && d == 0
    ensures AddThird(Pack(a, b), c) == Window(crc, a, b, c, d)
    ensures c == 0 ==> Pack(a, b) == Window(crc, a, b, c, d)
  {
    hide Pack, AddThird, Window;
    var p := Pack(a, b);
    PackIs(a, b);
    AddThirdIs(p, c);
    WindowIs(crc, a, b, c, d);
    StartBits(crc, a, b, c, d, p, AddThird(p, c), Window(crc, a, b, c, d));
  }

  lemma EmptyWindow()
    ensures 0 == Window(0, 0, 0, 0, 0)
  {
  }

  lemma LastByteBits(crc: bv16, a: bv8, b: bv8, c: bv8, z: bv8, d: bv8, t: bv32, u: bv32, w: bv32)
    requires z == 0
    requires t == (((crc ^ (((a as bv16) << 8) | (b as bv16))) as bv32) << 16) | ((c as bv32) << 8) | (z as bv32)
    requires u == t | (d as bv32)
    requires w == (((crc ^ (((a as bv16) << 8) | (b as bv16))) as bv32) << 16) | ((c as bv32) << 8) | (d as bv32)
    ensures u == w
  {
  }

  lemma LastByte(crc: bv16, a: bv8, b: bv8, c: bv8, z: bv8, d: bv8)
    requires z == 0
    ensures AddFourth(Window(crc, a, b, c, z), d) == Window(crc, a, b, c, d)
  {
    hide Window, AddFourth;
    var t := Window(crc, a, b, c, z);
    WindowIs(crc, a, b, c, z);
    WindowIs(crc, a, b, c, d);
    AddFourthIs(t, d);
    LastByteBits(crc, a, b, c, z, d, t, AddFourth(t, d), Window(crc, a, b, c, d));
  }

  lemma FinalWord(crc: bv16, a: bv8, z: bv8)
    ensures z == 0 ==>
              var t := (((crc ^ (((a as bv16) << 8) | (z as bv16))) as bv32) << 16) | ((z as bv32) << 8) | (z as bv32);
              (t >> 16) as bv16 == crc <==> a == 0
  {
  }

  lemma FinalWindow(crc: bv16, a: bv8, z: bv8)
    requires z == 0
    ensures Upper(Window(crc, a, z, z, z)) == crc <==> a == 0
  {
    hide Window, Upper;
    WindowIs(crc, a, z, z, z);
    UpperIs((((crc ^ (((a as bv16) << 8) | (z as bv16))) as bv32) << 16) | ((z as bv32) << 8) | (z as bv32));
    FinalWord(crc, a, z);
  }

  // -------------------------------------- eight rounds are one byte update

  ghost function Iterate<T>(f: T -> T, x: T, n: nat): T
    decreases n
  {
    if n == 0 then x else Iterate(f, f(x), n - 1)
  }

  lemma {:induction false} IterateAdds<T>(f: T -> T, x: T, m: nat, n: nat)
    ensures Iterate(f, x, m + n) == Iterate(f, Iterate(f, x, m), n)
    decreases m
  {
    if m > 0 {
      IterateAdds(f, f(x), m - 1, n);
    }
  }

  // One, two and four rounds without the branch: shift, and add the generator
  // times the bits shifted out.

  ghost function Single(t: bv32): bv32 {
    var m := t >> 31;
    (t << 1) ^ (m << 28) ^ (m << 21) ^ (m << 16)
  }

  ghost function Double(t: bv32): bv32 {
    var m := t >> 30;
    (t << 2) ^ (m << 28) ^ (m << 21) ^ (m << 16)
  }

  ghost function Nibble(t: bv32): bv32 {
    var m := t >> 28;
    (t << 4) ^ (m << 28) ^ (m << 21) ^ (m << 16)
  }

  lemma RoundSet(t: bv32)
    requires t & 0x80000000 != 0
    ensures Round(t) == (t ^ 0x88108000) << 1
  {
  }

  lemma RoundClear(t: bv32)
    requires t & 0x80000000 == 0
    ensures Round(t) == t << 1
  {
  }

  lemma SingleIs(t: bv32)
    ensures Single(t) == (t << 1) ^ ((t >> 31) << 28) ^ ((t >> 31) << 21) ^ ((t >> 31) << 16)
  {
  }

  lemma DoubleIs(t: bv32)
    ensures Double(t) == (t << 2) ^ ((t >> 30) << 28) ^ ((t >> 30) << 21) ^ ((t >> 30) << 16)
  {
  }

  lemma NibbleIs(t: bv32)
    ensures Nibble(t) == (t << 4) ^ ((t >> 28) << 28) ^ ((t >> 28) << 21) ^ ((t >> 28) << 16)
  {
  }

  lemma SetBits(t: bv32, r: bv32, s: bv32)
    requires t & 0x80000000 != 0 && r == (t ^ 0x88108000) << 1
    requires s == (t << 1) ^ ((t >> 31) << 28) ^ ((t >> 31) << 21) ^ ((t >> 31) << 16)
    ensures r == s
  {
  }

  lemma ClearBits(t: bv32, r: bv32, s: bv32)
    requires t & 0x80000000 == 0 && r == t << 1
    requires s == (t << 1) ^ ((t >> 31) << 28) ^ ((t >> 31) << 21) ^ ((t >> 31) << 16)
    ensures r == s
  {
  }

  lemma DoubleBits(t: bv32, s: bv32, r: bv32, d: bv32)
    requires s == (t << 1) ^ ((t >> 31) << 28) ^ ((t >> 31) << 21) ^ ((t >> 31) << 16)
    requires r == (s << 1) ^ ((s >> 31) << 28) ^ ((s >> 31) << 21) ^ ((s >> 31) << 16)
    requires d == (t << 2) ^ ((t >> 30) << 28) ^ ((t >> 30) << 21) ^ ((t >> 30) << 16)
    ensures r == d
  {
  }

  lemma NibbleBits(t: bv32, s: bv32, r: bv32, d: bv32)
    requires s == (t << 2) ^ ((t >> 30) << 28) ^ ((t >> 30) << 21) ^ ((t >> 30) << 16)
    requires r == (s << 2) ^ ((s >> 30) << 28) ^ ((s >> 30) << 21) ^ ((s >> 30) << 16)
    requires d == (t << 4) ^ ((t >> 28) << 28) ^ ((t >> 28) << 21) ^ ((t >> 28) << 16)
    ensures r == d
  {
  }

  lemma SingleRound(t: bv32)
    ensures Round(t) == Single(t)
  {
    hide Round, Single;
    SingleIs(t);
    if t & 0x80000000 != 0 {
      RoundSet(t);
      SetBits(t, Round(t), Single(t));
    } else {
      RoundClear(t);
      ClearBits(t, Round(t), Single(t));
    }
  }

  lemma {:induction false} FourRounds(t: bv32)
    ensures Iterate(Round, t, 4) == Nibble(t)
  {
    hide Round, Nibble, Single, Double;
    var t1 := Round(t);
    var t2 := Round(t1);
    var t3 := Round(t2);
    SingleRound(t);
    SingleRound(t1);
    SingleRound(t2);
    SingleRound(t3);
    SingleIs(t);
    SingleIs(t1);
    DoubleIs(t);
    DoubleBits(t, t1, t2, Double(t));
    SingleIs(t2);
    SingleIs(t3);
    DoubleIs(t2);
    DoubleBits(t2, t3, Round(t3), Double(t2));
    NibbleIs(t);
    NibbleBits(t, t2, Round(t3), Nibble(t));
    assert Iterate(Round, t3, 1) == Round(t3);
    assert Iterate(Round, t2, 2) == Round(t3);
    assert Iterate(Round, t1, 3) == Round(t3);
  }

  /** The update in closed form, through the byte that leaves at the top. */
  ghost function Closed(crc: bv16, a: bv8): bv16 {
    Spread(crc, Fold4(Top(crc, a)))
  }

  ghost function Top(crc: bv16, a: bv8): bv16 { ((crc >> 8) & 0xff) ^ (a as bv16) }

  ghost function Fold4(x: bv16): bv16 { x ^ (x >> 4) }

  ghost function Spread(crc: bv16, v: bv16): bv16 { (crc << 8) ^ v ^ (v << 5) ^ (v << 12) }

  ghost function Join(crc: bv16, v: bv16): bv16 { v | (crc << 8) }

  lemma TopIs(crc: bv16, a: bv8)
    ensures Top(crc, a) == ((crc >> 8) & 0xff) ^ (a as bv16)
  {
  }

  lemma Fold4Is(x: bv16)
    ensures Fold4(x) == x ^ (x >> 4)
  {
  }

  lemma SpreadIs(crc: bv16, v: bv16)
    ensures Spread(crc, v) == (crc << 8) ^ v ^ (v << 5) ^ (v << 12)
  {
  }

  lemma JoinIs(crc: bv16, v: bv16)
    ensures Join(crc, v) == v | (crc << 8)
  {
  }

  lemma EnterIs(crc: bv16, a: bv8)
    ensures Enter(crc, a) == (((crc >> 8) & 0xff) | (crc << 8)) ^ (a as bv16)
  {
  }

  lemma Mix4Is(c: bv16)
    ensures Mix4(c) == c ^ (((c >> 4) & 0xff) & 0xf)
  {
  }

  lemma Mix12Is(c: bv16)
    ensures Mix12(c) == c ^ (c << 12)
  {
  }

  lemma Mix5Is(c: bv16)
    ensures Mix5(c) == c ^ ((c & 0xff) << 5)
  {
  }

  lemma EnterBits(crc: bv16, a: bv8, x: bv16, c1: bv16, c2: bv16, v: bv16, k: bv16)
    requires c1 == (((crc >> 8) & 0xff) | (crc << 8)) ^ (a as bv16)
    requires c2 == c1 ^ (((c1 >> 4) & 0xff) & 0xf)
    requires x == ((crc >> 8) & 0xff) ^ (a as bv16)
    requires v == x ^ (x >> 4)
    requires k == v | (crc << 8)
    ensures c2 == k
  {
  }

  lemma MixBits(crc: bv16, a: bv8, x: bv16, v: bv16, k: bv16, c3: bv16, r: bv16, q: bv16)
    requires x == ((crc >> 8) & 0xff) ^ (a as bv16)
    requires v == x ^ (x >> 4)
    requires k == v | (crc << 8)
    requires c3 == k ^ (k << 12)
    requires r == c3 ^ ((c3 & 0xff) << 5)
    requires q == (crc << 8) ^ v ^ (v << 5) ^ (v << 12)
    ensures r == q
  {
  }

  lemma EnterJoins(crc: bv16, a: bv8)
    ensures Mix4(Enter(crc, a)) == Join(crc, Fold4(Top(crc, a)))
  {
    hide Enter, Mix4, Top, Fold4, Join;
    var x, c1 := Top(crc, a), Enter(crc, a);
    var v := Fold4(x);
    EnterIs(crc, a);
    Mix4Is(c1);
    TopIs(crc, a);
    Fold4Is(x);
    JoinIs(crc, v);
    EnterBits(crc, a, x, c1, Mix4(c1), v, Join(crc, v));
  }

  lemma JoinMixes(crc: bv16, a: bv8)
    ensures var v := Fold4(Top(crc, a)); Mix5(Mix12(Join(crc, v))) == Spread(crc, v)
  {
    hide Mix12, Mix5, Top, Fold4, Join, Spread;
    var x := Top(crc, a);
    var v := Fold4(x);
    var k := Join(crc, v);
    TopIs(crc, a);
    Fold4Is(x);
    JoinIs(crc, v);
    Mix12Is(k);
    Mix5Is(Mix12(k));
    SpreadIs(crc, v);
    MixBits(crc, a, x, v, k, Mix12(k), Mix5(Mix12(k)), Spread(crc, v));
  }

  lemma UpdateIsClosed(crc: bv16, a: bv8)
    ensures Update(crc, a) == Closed(crc, a)
  {
    hide Enter, Mix4, Mix12, Mix5, Top, Fold4, Join, Spread;
    EnterJoins(crc, a);
    JoinMixes(crc, a);
  }

  // A nibble step as a sum of named parts, so that two of them can be combined.

  ghost function Shl4(t: bv32): bv32 { t << 4 }
  ghost function Shl8(t: bv32): bv32 { t << 8 }
  ghost function TopNibble(t: bv32): bv32 { t >> 28 }
  ghost function TopByte(t: bv32): bv32 { t >> 24 }
  ghost function Glue(m: bv32, n: bv32): bv32 { (m << 4) | n }
  ghost function Mix32(u: bv32): bv32 { (u << 28) ^ (u << 21) ^ (u << 16) }
  ghost function Fold32(y: bv32): bv32 { y ^ (y >> 4) }
  ghost function Xor32(x: bv32, y: bv32): bv32 { x ^ y }

  ghost function Reduced(t: bv32): bv32 { Xor32(Shl4(t), Mix32(TopNibble(t))) }

  lemma Shl4Is(t: bv32)
    ensures Shl4(t) == t << 4
  {
  }

  lemma Shl8Is(t: bv32)
    ensures Shl8(t) == t << 8
  {
  }

  lemma TopNibbleIs(t: bv32)
    ensures TopNibble(t) == t >> 28
  {
  }

  lemma Mix32Is(u: bv32)
    ensures Mix32(u) == (u << 28) ^ (u << 21) ^ (u << 16)
  {
  }

  lemma Xor32Is(x: bv32, y: bv32)
    ensures Xor32(x, y) == x ^ y
  {
  }

  lemma FoldTopIs(t: bv32)
    ensures Fold32(TopByte(t)) == (t >> 24) ^ ((t >> 24) >> 4)
  {
  }

  lemma ReducedBits(t: bv32, m: bv32, k: bv32, x: bv32, d: bv32, e: bv32)
    requires m == t >> 28
    requires k == t << 4
    requires x == (m << 28) ^ (m << 21) ^ (m << 16)
    requires e == k ^ x
    requires d == (t << 4) ^ ((t >> 28) << 28) ^ ((t >> 28) << 21) ^ ((t >> 28) << 16)
    ensures e == d
  {
  }

  lemma NibbleIsReduced(t: bv32)
    ensures Nibble(t) == Reduced(t)
  {
    hide Shl4, Mix32, Xor32, TopNibble, Nibble;
    var m := TopNibble(t);
    NibbleIs(t);
    TopNibbleIs(t);
    Shl4Is(t);
    Mix32Is(m);
    Xor32Is(Shl4(t), Mix32(m));
    ReducedBits(t, m, Shl4(t), Mix32(m), Nibble(t), Reduced(t));
  }

  lemma Shl4Adds(x: bv32, y: bv32)
    ensures Shl4(Xor32(x, y)) == Xor32(Shl4(x), Shl4(y))
  {
  }

  lemma Shl4Twice(t: bv32)
    ensures Shl4(Shl4(t)) == Shl8(t)
  {
  }

  lemma Xor32Associates(x: bv32, y: bv32, z: bv32)
    ensures Xor32(Xor32(x, y), z) == Xor32(x, Xor32(y, z))
  {
  }

  lemma GlueBits(s: bv32, t: bv32, m: bv32, n: bv32, q: bv32, k: bv32, l: bv32, x: bv32, y: bv32)
    requires m == s >> 28 && n == t >> 28
    requires q == (m << 4) | n
    requires k == ((m << 28) ^ (m << 21) ^ (m << 16)) << 4
    requires l == (n << 28) ^ (n << 21) ^ (n << 16)
    requires x == k ^ l
    requires y == (q << 28) ^ (q << 21) ^ (q << 16)
    ensures x == y
  {
  }

  /** Two nibbles leaving at the top act like the byte they make up. */
  lemma MixGlues(s: bv32, t: bv32)
    ensures var m, n := TopNibble(s), TopNibble(t); Xor32(Shl4(Mix32(m)), Mix32(n)) == Mix32(Glue(m, n))
  {
    hide Xor32, Shl4, Mix32;
    var m, n := TopNibble(s), TopNibble(t);
    Mix32Is(m);
    Mix32Is(n);
    Mix32Is(Glue(m, n));
    Shl4Is((m << 28) ^ (m << 21) ^ (m << 16));
    Xor32Is(Shl4(Mix32(m)), Mix32(n));
    GlueBits(s, t, m, n, Glue(m, n), Shl4(Mix32(m)), Mix32(n), Xor32(Shl4(Mix32(m)), Mix32(n)), Mix32(Glue(m, n)));
  }

  lemma LeavingBits(t: bv32, m: bv32, k: bv32, x: bv32, t4: bv32, n: bv32, q: bv32, v: bv32)
    requires m == t >> 28
    requires k == t << 4
    requires x == (m << 28) ^ (m << 21) ^ (m << 16)
    requires t4 == k ^ x
    requires n == t4 >> 28
    requires q == (m << 4) | n
    requires v == (t >> 24) ^ ((t >> 24) >> 4)
    ensures q == v
  {
  }

  /** The byte they make up is the folded top byte. */
  lemma LeavingByte(t: bv32)
    ensures Glue(TopNibble(t), TopNibble(Reduced(t))) == Fold32(TopByte(t))
  {
    hide Fold32, TopByte, Shl4, Mix32, Xor32;
    var m, t4 := TopNibble(t), Reduced(t);
    Shl4Is(t);
    Mix32Is(m);
    Xor32Is(Shl4(t), Mix32(m));
    FoldTopIs(t);
    LeavingBits(t, m, Shl4(t), Mix32(m), t4, TopNibble(t4), Glue(m, TopNibble(t4)), Fold32(TopByte(t)));
  }

  lemma ReducedTwice(t: bv32)
    ensures Reduced(Reduced(t)) == Xor32(Shl8(t), Mix32(Fold32(TopByte(t))))
  {
    hide Xor32, Shl8, Shl4, Mix32, Fold32, TopByte, TopNibble, Glue;
    var t4 := Reduced(t);
    var m, n := TopNibble(t), TopNibble(t4);
    Shl4Adds(Shl4(t), Mix32(m));
    Shl4Twice(t);
    Xor32Associates(Shl8(t), Shl4(Mix32(m)), Mix32(n));
    MixGlues(t, t4);
    LeavingByte(t);
  }

  // The same in 16 bits, on the upper half of the register.

  ghost function Widen(x: bv16): bv32 { x as bv32 }
  ghost function High(k: bv16): bv32 { (k as bv32) << 16 }
  ghost function Mix16(v: bv16): bv16 { (v << 12) ^ (v << 5) ^ v }
  ghost function Xor16(x: bv16, y: bv16): bv16 { x ^ y }
  ghost function Halves(g: bv16, d: bv8): bv32 { ((g as bv32) << 16) | ((d as bv32) << 8) }
  ghost function Shifted(crc: bv16, b: bv8, c: bv8): bv16 { (crc << 8) ^ ((b as bv16) << 8) ^ (c as bv16) }

  lemma TopByteOfWindow(crc: bv16, a: bv8, b: bv8, c: bv8, d: bv8)
    ensures TopByte(Window(crc, a, b, c, d)) == Widen(Top(crc, a))
  {
  }

  lemma WidenIs(x: bv16)
    ensures Widen(x) == x as bv32
  {
  }

  lemma Fold32Is(y: bv32)
    ensures Fold32(y) == y ^ (y >> 4)
  {
  }

  lemma FoldBits(x: bv16)
    ensures (x as bv32) ^ ((x as bv32) >> 4) == (x ^ (x >> 4)) as bv32
  {
  }

  lemma FoldWidens(x: bv16)
    ensures Fold32(Widen(x)) == Widen(Fold4(x))
  {
    hide Fold32, Widen, Fold4;
    WidenIs(x);
    Fold4Is(x);
    Fold32Is(x as bv32);
    WidenIs(x ^ (x >> 4));
    FoldBits(x);
  }

  lemma FoldedIsByte(crc: bv16, a: bv8)
    ensures Fold4(Top(crc, a)) & 0xff00 == 0
  {
  }

  lemma MixWidens(v: bv16)
    requires v & 0xff00 == 0
    ensures Mix32(Widen(v)) == High(Mix16(v))
  {
  }

  lemma ShiftBits(crc: bv16, a: bv8, b: bv8, c: bv8, d: bv8)
    ensures ((((crc ^ (((a as bv16) << 8) | (b as bv16))) as bv32) << 16) | ((c as bv32) << 8) | (d as bv32)) << 8
         == ((((crc << 8) ^ ((b as bv16) << 8) ^ (c as bv16)) as bv32) << 16) | ((d as bv32) << 8)
  {
  }

  lemma HalvesIs(crc: bv16, b: bv8, c: bv8, d: bv8)
    ensures Halves(Shifted(crc, b, c), d)
         == ((((crc << 8) ^ ((b as bv16) << 8) ^ (c as bv16)) as bv32) << 16) | ((d as bv32) << 8)
  {
  }

  lemma HalvesAdd(g: bv16, k: bv16, d: bv8)
    ensures Xor32(Halves(g, d), High(k)) == Halves(Xor16(g, k), d)
  {
  }

  /** The register moves up by a byte, and what the leaving byte contributes is added to its upper half. */
  lemma WindowShifts(crc: bv16, a: bv8, b: bv8, c: bv8, d: bv8, k: bv16)
    ensures Xor32(Shl8(Window(crc, a, b, c, d)), High(k)) == Halves(Xor16(Shifted(crc, b, c), k), d)
  {
    hide Shl8, Window, Halves, Shifted, Xor32, Xor16, High;
    WindowIs(crc, a, b, c, d);
    Shl8Is((((crc ^ (((a as bv16) << 8) | (b as bv16))) as bv32) << 16) | ((c as bv32) << 8) | (d as bv32));
    ShiftBits(crc, a, b, c, d);
    HalvesIs(crc, b, c, d);
    HalvesAdd(Shifted(crc, b, c), k, d);
  }

  lemma HalfBits(r: bv16, b: bv8, c: bv8, d: bv8, z: bv8)
    ensures z == 0 ==>
              (((r ^ (((b as bv16) << 8) | (c as bv16))) as bv32) << 16) | ((d as bv32) << 8) | (z as bv32)
              == (((r ^ (((b as bv16) << 8) | (c as bv16))) as bv32) << 16) | ((d as bv32) << 8)
  {
  }

  lemma HalvesOfWord(r: bv16, b: bv8, c: bv8, d: bv8)
    ensures Halves(Xor16(r, Word(b, c)), d)
         == (((r ^ (((b as bv16) << 8) | (c as bv16))) as bv32) << 16) | ((d as bv32) << 8)
  {
  }

  lemma WindowIsHalves(r: bv16, b: bv8, c: bv8, d: bv8, z: bv8)
    requires z == 0
    ensures Window(r, b, c, d, z) == Halves(Xor16(r, Word(b, c)), d)
  {
    hide Window, Halves, Xor16, Word;
    WindowIs(r, b, c, d, z);
    HalvesOfWord(r, b, c, d);
    HalfBits(r, b, c, d, z);
  }

  lemma ShiftedIs(crc: bv16, b: bv8, c: bv8)
    ensures Shifted(crc, b, c) == (crc << 8) ^ ((b as bv16) << 8) ^ (c as bv16)
  {
  }

  lemma Mix16Is(v: bv16)
    ensures Mix16(v) == (v << 12) ^ (v << 5) ^ v
  {
  }

  lemma Xor16Is(x: bv16, y: bv16)
    ensures Xor16(x, y) == x ^ y
  {
  }

  lemma WordIs(h: bv8, l: bv8)
    ensures Word(h, l) == ((h as bv16) << 8) | (l as bv16)
  {
  }

  lemma SpreadBits(crc: bv16, b: bv8, c: bv8, v: bv16, g: bv16, k: bv16, h: bv16, r: bv16, w: bv16, i: bv16)
    requires g == (crc << 8) ^ ((b as bv16) << 8) ^ (c as bv16)
    requires k == (v << 12) ^ (v << 5) ^ v
    requires h == g ^ k
    requires r == (crc << 8) ^ v ^ (v << 5) ^ (v << 12)
    requires w == ((b as bv16) << 8) | (c as bv16)
    requires i == r ^ w
    ensures h == i
  {
  }

  lemma ShiftedIsSpread(crc: bv16, b: bv8, c: bv8, v: bv16)
    ensures Xor16(Shifted(crc, b, c), Mix16(v)) == Xor16(Spread(crc, v), Word(b, c))
  {
    hide Xor16, Shifted, Mix16, Spread, Word;
    var g, k, r, w := Shifted(crc, b, c), Mix16(v), Spread(crc, v), Word(b, c);
    ShiftedIs(crc, b, c);
    Mix16Is(v);
    Xor16Is(g, k);
    SpreadIs(crc, v);
    WordIs(b, c);
    Xor16Is(r, w);
    SpreadBits(crc, b, c, v, g, k, Xor16(g, k), r, w, Xor16(r, w));
  }

  lemma NibblesAreUpdate(crc: bv16, a: bv8, b: bv8, c: bv8, d: bv8, z: bv8)
    requires z == 0
    ensures Nibble(Nibble(Window(crc, a, b, c, d))) == Window(Closed(crc, a), b, c, d, z)
  {
    hide Window, Nibble, Top, Fold4, Spread, Shl8, Mix32, Xor32, Xor16, TopByte, Fold32, Widen, High, Mix16, Halves,
         Shifted, Word, Reduced;
    var t, v := Window(crc, a, b, c, d), Fold4(Top(crc, a));
    NibbleIsReduced(t);
    NibbleIsReduced(Reduced(t));
    ReducedTwice(t);
    TopByteOfWindow(crc, a, b, c, d);
    FoldWidens(Top(crc, a));
    FoldedIsByte(crc, a);
    MixWidens(v);
    WindowShifts(crc, a, b, c, d, Mix16(v));
    ShiftedIsSpread(crc, b, c, v);
    WindowIsHalves(Spread(crc, v), b, c, d, z);
  }

  /** Eight rounds of bit-serial division are one byte-wise update and a shift of the message. */
  lemma ByteStep(crc: bv16, a: bv8, b: bv8, c: bv8, d: bv8)
    ensures Iterate(Round, Window(crc, a, b, c, d), 8) == Window(Update(crc, a), b, c, d, 0)
  {
    hide Round, Nibble, Window, Update, Closed;
    var t := Window(crc, a, b, c, d);
    IterateAdds(Round, t, 4, 4);
    FourRounds(t);
    FourRounds(Nibble(t));
    NibblesAreUpdate(crc, a, b, c, d, 0);
    UpdateIsClosed(crc, a);
  }

  // -------------------------------------------- what the checksum detects

  ghost function Word(h: bv8, l: bv8): bv16 { ((h as bv16) << 8) | (l as bv16) }

  ghost function XorHigh(v: bv16, a: bv8): bv16 { v ^ ((a as bv16) << 8) }

  ghost function XorLow(v: bv16, a: bv8): bv16 { v ^ (a as bv16) }

  ghost function XorWord(v: bv16, h: bv8, l: bv8): bv16 { v ^ Word(h, l) }

  lemma HighBits(crc: bv16, a: bv8, z: bv8, v: bv16, c: bv16, d: bv16)
    requires z == 0
    requires v == crc ^ ((a as bv16) << 8)
    requires c == (((crc >> 8) & 0xff) | (crc << 8)) ^ (a as bv16)
    requires d == (((v >> 8) & 0xff) | (v << 8)) ^ (z as bv16)
    ensures c == d
  {
  }

  lemma XorHighIs(v: bv16, a: bv8)
    ensures XorHigh(v, a) == v ^ ((a as bv16) << 8)
  {
  }

  lemma XorLowIs(v: bv16, a: bv8)
    ensures XorLow(v, a) == v ^ (a as bv16)
  {
  }

  /** A byte enters through the high half of the checksum. */
  lemma ByteEntersHigh(crc: bv16, a: bv8, z: bv8)
    requires z == 0
    ensures Update(crc, a) == Update(XorHigh(crc, a), z)
  {
    hide Enter, Mix4, Mix12, Mix5, XorHigh;
    var v := XorHigh(crc, a);
    XorHighIs(crc, a);
    EnterIs(crc, a);
    EnterIs(v, z);
    HighBits(crc, a, z, v, Enter(crc, a), Enter(v, z));
  }

  lemma SameTop(v: bv16, z: bv8, l: bv8, w: bv16, x: bv16, y: bv16)
    requires z == 0
    requires w == v ^ (l as bv16)
    requires x == ((v >> 8) & 0xff) ^ (z as bv16)
    requires y == ((w >> 8) & 0xff) ^ (z as bv16)
    ensures x == y
  {
  }

  lemma LowBits(v: bv16, l: bv8, w: bv16, s: bv16, r: bv16, q: bv16, p: bv16)
    requires w == v ^ (l as bv16)
    requires r == (v << 8) ^ s ^ (s << 5) ^ (s << 12)
    requires q == (w << 8) ^ s ^ (s << 5) ^ (s << 12)
    requires p == r ^ ((l as bv16) << 8)
    ensures p == q
  {
  }

  lemma LowByteMovesUp(v: bv16, z: bv8, l: bv8)
    requires z == 0
    ensures XorHigh(Closed(v, z), l) == Closed(XorLow(v, l), z)
  {
    hide Top, Fold4, Spread, XorHigh, XorLow;
    var w := XorLow(v, l);
    var x, y := Top(v, z), Top(w, z);
    XorLowIs(v, l);
    TopIs(v, z);
    TopIs(w, z);
    SameTop(v, z, l, w, x, y);
    var s := Fold4(x);
    var r := Spread(v, s);
    XorHighIs(r, l);
    SpreadIs(v, s);
    SpreadIs(w, s);
    LowBits(v, l, w, s, r, Spread(w, s), XorHigh(r, l));
  }

  lemma WordBits(v: bv16, h: bv8, l: bv8, x: bv16, y: bv16, z: bv16)
    requires x == v ^ ((h as bv16) << 8) && y == x ^ (l as bv16)
    requires z == v ^ (((h as bv16) << 8) | (l as bv16))
    ensures y == z
  {
  }

  lemma XorWordBits(v: bv16, h: bv8, l: bv8)
    ensures XorWord(v, h, l) == v ^ (((h as bv16) << 8) | (l as bv16))
  {
  }

  lemma WordInHalves(v: bv16, h: bv8, l: bv8)
    ensures XorLow(XorHigh(v, h), l) == XorWord(v, h, l)
  {
    hide XorHigh, XorLow, XorWord;
    var x := XorHigh(v, h);
    XorHighIs(v, h);
    XorLowIs(x, l);
    XorWordBits(v, h, l);
    WordBits(v, h, l, x, XorLow(x, l), XorWord(v, h, l));
  }

  /** Two updates see the checksum and the two bytes only through their exclusive or. */
  lemma TwoUpdates(crc: bv16, h: bv8, l: bv8)
    ensures Update(Update(crc, h), l) == Update(Update(XorWord(crc, h, l), 0), 0)
  {
    hide Update, Closed, XorHigh, XorLow, XorWord;
    ByteEntersHigh(crc, h, 0);
    var v := XorHigh(crc, h);
    ByteEntersHigh(Update(v, 0), l, 0);
    LowByteMovesUp(v, 0, l);
    UpdateIsClosed(v, 0);
    UpdateIsClosed(XorLow(v, l), 0);
    WordInHalves(crc, h, l);
  }

  lemma Mix5Bits(c: bv16, d: bv16, x: bv16, y: bv16)
    requires x == c ^ ((c & 0xff) << 5)
    requires y == d ^ ((d & 0xff) << 5)
    requires x == y
    ensures c == d
  {
  }

  lemma Mix5Injective(c: bv16, d: bv16)
    requires Mix5(c) == Mix5(d)
    ensures c == d
  {
    hide Mix5;
    Mix5Is(c);
    Mix5Is(d);
    Mix5Bits(c, d, Mix5(c), Mix5(d));
  }

  lemma Mix12Bits(c: bv16, d: bv16, x: bv16, y: bv16)
    requires x == c ^ (c << 12)
    requires y == d ^ (d << 12)
    requires x == y
    ensures c == d
  {
  }

  lemma Mix12Injective(c: bv16, d: bv16)
    requires Mix12(c) == Mix12(d)
    ensures c == d
  {
    hide Mix12;
    Mix12Is(c);
    Mix12Is(d);
    Mix12Bits(c, d, Mix12(c), Mix12(d));
  }

  lemma Mix4Bits(c: bv16, d: bv16, x: bv16, y: bv16)
    requires x == c ^ (((c >> 4) & 0xff) & 0xf)
    requires y == d ^ (((d >> 4) & 0xff) & 0xf)
    requires x == y
    ensures c == d
  {
  }

  lemma Mix4Injective(c: bv16, d: bv16)
    requires Mix4(c) == Mix4(d)
    ensures c == d
  {
    hide Mix4;
    Mix4Is(c);
    Mix4Is(d);
    Mix4Bits(c, d, Mix4(c), Mix4(d));
  }

  lemma EnterOneBits(c: bv16, d: bv16, a: bv8, x: bv16, y: bv16)
    requires x == (((c >> 8) & 0xff) | (c << 8)) ^ (a as bv16)
    requires y == (((d >> 8) & 0xff) | (d << 8)) ^ (a as bv16)
    requires x == y
    ensures c == d
  {
  }

  lemma EnterInjective(c: bv16, d: bv16, a: bv8)
    requires Enter(c, a) == Enter(d, a)
    ensures c == d
  {
    hide Enter;
    EnterIs(c, a);
    EnterIs(d, a);
    EnterOneBits(c, d, a, Enter(c, a), Enter(d, a));
  }

  /** An update loses nothing: the checksum before it can be told from the one after. */
  lemma UpdateInjective(v: bv16, w: bv16, a: bv8)
    requires Update(v, a) == Update(w, a)
    ensures v == w
  {
    hide Enter, Mix4, Mix12, Mix5;
    Mix5Injective(Mix12(Mix4(Enter(v, a))), Mix12(Mix4(Enter(w, a))));
    Mix12Injective(Mix4(Enter(v, a)), Mix4(Enter(w, a)));
    Mix4Injective(Enter(v, a), Enter(w, a));
    EnterInjective(v, w, a);
  }

  lemma CancelBits(v: bv16, w: bv16, a: bv16, x: bv16, y: bv16)
    requires x == v ^ a && y == w ^ a
    ensures x == y ==> v == w
    ensures x == 0 <==> v == a
  {
  }

  lemma PairBits(h: bv8, l: bv8, h': bv8, l': bv8, x: bv16, y: bv16)
    requires x == ((h as bv16) << 8) | (l as bv16) && y == ((h' as bv16) << 8) | (l' as bv16) && x == y
    ensures h == h' && l == l'
  {
  }

  lemma XorWordIs(v: bv16, h: bv8, l: bv8)
    ensures XorWord(v, h, l) == Word(h, l) ^ v && XorWord(v, h, l) == v ^ Word(h, l)
  {
  }

  lemma WordCancels(v: bv16, h: bv8, l: bv8, h': bv8, l': bv8)
    requires XorWord(v, h, l) == XorWord(v, h', l')
    ensures h == h' && l == l'
  {
    hide XorWord;
    XorWordIs(v, h, l);
    XorWordIs(v, h', l');
    CancelBits(Word(h, l), Word(h', l'), v, XorWord(v, h, l), XorWord(v, h', l'));
    PairBits(h, l, h', l', Word(h, l), Word(h', l'));
  }

  lemma WordIsZero(v: bv16, h: bv8, l: bv8)
    ensures XorWord(v, h, l) == 0 <==> v == Word(h, l)
  {
    hide Word, XorWord;
    XorWordIs(v, h, l);
    CancelBits(v, v, Word(h, l), XorWord(v, h, l), XorWord(v, h, l));
  }

  lemma UpdateZero()
    ensures Update(0, 0) == 0
  {
  }

  lemma {:induction false} FoldSnoc(p: seq<bv8>, a: bv8)
    ensures Fold(p + [a]) == Update(Fold(p), a)
  {
    assert (p + [a])[..|p|] == p;
  }

  /**
   The receiver's test: a message followed by two bytes folds to zero exactly when they are
   its checksum.
   */
  lemma {:induction false} ReceiverAcceptsOnlyTheChecksum(p: seq<bv8>, h: bv8, l: bv8)
    ensures Fold(p + [h, l]) == 0 <==> Fold(p) == Word(h, l)
  {
    hide Update, XorWord, Word;
    assert p + [h, l] == p + [h] + [l];
    FoldSnoc(p, h);
    FoldSnoc(p + [h], l);
    var c := Fold(p);
    TwoUpdates(c, h, l);
    var x := XorWord(c, h, l);
    WordIsZero(c, h, l);
    UpdateZero();
    if Update(Update(x, 0), 0) == 0 {
      UpdateInjective(Update(x, 0), 0, 0);
      UpdateInjective(x, 0, 0);
    }
  }

  /** Different checksums stay different when the same bytes follow. */
  lemma {:induction false} DifferenceSurvives(p: seq<bv8>, q: seq<bv8>, tail: seq<bv8>)
    requires Fold(p) != Fold(q)
    ensures Fold(p + tail) != Fold(q + tail)
    decreases |tail|
  {
    hide Update;
    if tail == [] {
      assert p + tail == p && q + tail == q;
    } else {
      var a := tail[0];
      FoldSnoc(p, a);
      FoldSnoc(q, a);
      if Update(Fold(p), a) == Update(Fold(q), a) {
        UpdateInjective(Fold(p), Fold(q), a);
      }
      DifferenceSurvives(p + [a], q + [a], tail[1..]);
      assert p + tail == p + [a] + tail[1..] && q + tail == q + [a] + tail[1..];
    }
  }

  /** Every corruption confined to two adjacent bytes changes the checksum. */
  lemma {:induction false} AdjacentCorruptionIsDetected(
    head: seq<bv8>, h: bv8, l: bv8, h': bv8, l': bv8, tail: seq<bv8>)
    requires h != h' || l != l'
    ensures Fold(head + [h, l] + tail) != Fold(head + [h', l'] + tail)
  {
    hide Update, XorWord;
    var c := Fold(head);
    assert head + [h, l] == head + [h] + [l] && head + [h', l'] == head + [h'] + [l'];
    FoldSnoc(head, h);
    FoldSnoc(head + [h], l);
    FoldSnoc(head, h');
    FoldSnoc(head + [h'], l');
    TwoUpdates(c, h, l);
    TwoUpdates(c, h', l');
    var x, y := XorWord(c, h, l), XorWord(c, h', l');
    if Update(Update(x, 0), 0) == Update(Update(y, 0), 0) {
      UpdateInjective(Update(x, 0), Update(y, 0), 0);
      UpdateInjective(x, y, 0);
      WordCancels(c, h, l, h', l');
    }
    DifferenceSurvives(head + [h, l], head + [h', l'], tail);
  }

  /**
   The generator x^16 + x^12 + x^5 + 1: the checksum of the byte one. And the value that is
   customary to check implementations with, for the digits 1 to 9.
   */
  lemma {:induction false} GeneratorAndCheckValue()
    ensures Fold([1]) == 0x1021
    ensures Fold([0x31, 0x32, 0x33, 0x34, 0x35, 0x36, 0x37, 0x38, 0x39]) == 0x31C3
  {
    hide Update, Fold;
    var one: seq<bv8> := [1];
    FoldOne(one);
    UpdateValues();
    var p: seq<bv8> := [0x31, 0x32, 0x33, 0x34, 0x35, 0x36, 0x37, 0x38, 0x39];
    FoldOne(p[..1]);
    Extend(p, 1, 0x20B5);
    Extend(p, 2, 0x9752);
    Extend(p, 3, 0xD789);
    Extend(p, 4, 0x546C);
    Extend(p, 5, 0x20E4);
    Extend(p, 6, 0x86D6);
    Extend(p, 7, 0x9015);
    Extend(p, 8, 0x31C3);
    assert p[..9] == p;
  }

  lemma {:induction false} FoldOne(p: seq<bv8>)
    requires |p| == 1
    ensures Fold(p) == Update(0, p[0])
  {
    assert p[..0] == [];
  }

  lemma {:induction false} Extend(p: seq<bv8>, i: nat, crc: bv16)
    requires i < |p| && Update(Fold(p[..i]), p[i]) == crc
    ensures Fold(p[..i + 1]) == crc
  {
    assert p[..i + 1] == p[..i] + [p[i]];
    FoldSnoc(p[..i], p[i]);
  }

  lemma UpdateValues()
    ensures Update(0, 1) == 0x1021 && Update(0, 0x31) == 0x2672 && Update(0x2672, 0x32) == 0x20B5
    ensures Update(0x20B5, 0x33) == 0x9752 && Update(0x9752, 0x34) == 0xD789 && Update(0xD789, 0x35) == 0x546C
    ensures Update(0x546C, 0x36) == 0x20E4 && Update(0x20E4, 0x37) == 0x86D6 && Update(0x86D6, 0x38) == 0x9015
    ensures Update(0x9015, 0x39) == 0x31C3
  {
  }
}
