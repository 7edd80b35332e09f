/** Printing an int into a 16-byte digit area, and parsing decimal text back with `atoi`. */
module PrintParse {
  import opened Common

  const INT_MAX: int := 0x7FFF_FFFF
  const INT_MIN: int := -0x8000_0000
  const UINT_MOD: int := 0x1_0000_0000

  const DIGITS: seq<char> := "0123456789abcdef"

  function DigitChar(v: nat): char
    requires v < 16
  {
    DIGITS[v]
  }

  // -------------------------------------------------------------- printing

  /** The digits of a number, most significant first. */
  ghost function Digits(x: nat, base: nat): (s: seq<char>)
    requires 2 <= base <= 16
    ensures s != []
  {
    (if x < base then [] else Digits(x / base, base)) + [DigitChar(x % base)]
  }

  /** The unsigned number whose digits are printed; negating an int wraps at 32 bits. */
  function Magnitude(xx: int, sign: bool): (x: nat)
    requires INT_MIN <= xx <= INT_MAX
    ensures x == if xx >= 0 then xx else if sign then 0 - xx else xx + 0x1_0000_0000
  {
    if sign && xx < 0 then (-xx) % UINT_MOD else xx % UINT_MOD
  }

  ghost function Text(xx: int, base: nat, sign: bool): seq<char>
    requires INT_MIN <= xx <= INT_MAX && 2 <= base <= 16
  {
    (if sign && xx < 0 then "-" else "") + Digits(Magnitude(xx, sign), base)
  }

  /** The digits above the last one: none once the quotient is zero. */
  ghost function Higher(x: nat, base: nat): seq<char>
    requires 2 <= base <= 16
  {
    if x == 0 then [] else Digits(x, base)
  }

  lemma {:induction false} LastDigit(x: nat, base: nat)
    requires 2 <= base <= 16
    ensures Digits(x, base) == Higher(x / base, base) + [DigitChar(x % base)]
    ensures Higher(x, base) == (if x == 0 then [] else Digits(x, base))
  {
    hide DigitChar;
    DivBelow(x, base, 1);
  }

  /** One digit and the quotient. */
  method NextDigit(x: nat, base: nat) returns (d: char, q: nat)
    requires 2 <= base <= 16
    ensures Digits(x, base) == Higher(q, base) + [d] && (x > 0 ==> q < x)
  {
    hide Digits, Higher, DigitChar;
    LastDigit(x, base);
    if x > 0 {
      Shrinks(x, base);
    }
    d, q := DigitChar(x % base), x / base;
  }

  /** The do-while loop: digits are stored downwards from index 15; the result is the next free index. */
  method StoreDigits(buf: array<char>, x0: nat, base: nat) returns (i: int)
    requires buf.Length == 17 && 2 <= base <= 16 && |Digits(x0, base)| <= 16
    modifies buf
    ensures -1 <= i < 15 && buf[i + 1..16] == Digits(x0, base)
  {
    hide Digits;
    var d, x := NextDigit(x0, base);
    buf[15] := d;
    i := 14;
    assert buf[i + 1..16] == [d];
    while x != 0
      invariant -1 <= i < 15 && Digits(x0, base) == Higher(x, base) + buf[i + 1..16]
      decreases x
    {
      ghost var done := buf[i + 1..16];
      d, x := NextDigit(x, base);
      buf[i] := d;
      assert buf[i..16] == [d] + done;
      i := i - 1;
    }
  }

  lemma Shrinks(x: nat, base: nat)
    requires x > 0 && base >= 2
    ensures x / base < x
  {
    DivBelow(x, base, x);
    assert base * x == x + x + (base - 2) * x;
    ProductIsNatural(base - 2, x);
  }

  /** `printint`; the text must fit the digit area, for which `FitsIff` gives the condition. */
  method PrintInt(xx: int, base: nat, sign: bool) returns (out: seq<char>)
    requires INT_MIN <= xx <= INT_MAX && 2 <= base <= 16 && |Text(xx, base, sign)| <= 16
    ensures out == Text(xx, base, sign)
  {
    var buf := new char[17];
    var neg := sign && xx < 0;
    hide Digits;
    buf[16] := '\0';
    var i := StoreDigits(buf, Magnitude(xx, sign), base);
    if neg {
      ghost var done := buf[i + 1..16];
      buf[i] := '-';
      assert buf[i..16] == "-" + done;
      i := i - 1;
    }
    i := i + 1;
    out := buf[i..16];
  }

  // --------------------------------------------------------------- parsing

  /** The character at a position; the string ends with a zero. */
  function At(s: seq<char>, i: nat): char { if i < |s| then s[i] else '\0' }

  /** Blank, tab, newline, vertical tab, form feed and carriage return. */
  predicate IsSpace(c: char): (r: bool)
    ensures r <==> c as int in {32, 9, 10, 11, 12, 13}
  {
    c == ' ' || 0 <= c as int - 9 < 5
  }

  predicate IsDigit(c: char): (r: bool)
    ensures r <==> c in {'0', '1', '2', '3', '4', '5', '6', '7', '8', '9'}
  {
    0 <= c as int - '0' as int < 10
  }

  ghost function DigitValue(c: char): nat
    requires IsDigit(c)
  {
    c as int - '0' as int
  }

  ghost predicate AllDigits(s: seq<char>) { forall i :: 0 <= i < |s| ==> IsDigit(s[i]) }

  /** The number a string of digits denotes. */
  ghost function Value(s: seq<char>): nat
    requires AllDigits(s)
  {
    if s == [] then 0 else 10 * Value(s[..|s| - 1]) + DigitValue(s[|s| - 1])
  }

  /** The end of the white space from `i`. */
  ghost function SpaceEnd(s: seq<char>, i: nat): (j: nat)
    requires i <= |s|
    ensures i <= j <= |s| && !IsSpace(At(s, j)) && forall k :: i <= k < j ==> IsSpace(s[k])
    decreases |s| - i
  {
    if i < |s| && IsSpace(s[i]) then SpaceEnd(s, i + 1) else i
  }

  ghost function DigitEnd(s: seq<char>, i: nat): (j: nat)
    requires i <= |s|
    ensures i <= j <= |s| && !IsDigit(At(s, j)) && AllDigits(s[i..j])
    decreases |s| - i
  {
    if i < |s| && IsDigit(s[i]) then
      var j := DigitEnd(s, i + 1);
      assert s[i..j] == [s[i]] + s[i + 1..j];
      j
    else i
  }

  /** The number `v` with its sign, if it is an int. */
  function Signed(neg: bool, v: nat): (r: Option<int>)
    ensures r.Some? <==> -0x8000_0000 <= (if neg then 0 - v else v) <= 0x7FFF_FFFF
    ensures r.Some? ==> r.value == if neg then 0 - v else v
  {
    if neg then (if 0 - v >= INT_MIN then Some(0 - v) else None) else (if v <= INT_MAX then Some(v) else None)
  }

  /** White space, an optional sign, and the longest run of digits. */
  ghost function Parse(s: seq<char>): Option<int> {
    var i := SpaceEnd(s, 0);
    var j := if At(s, i) == '-' || At(s, i) == '+' then i + 1 else i;
    Signed(At(s, i) == '-', Value(s[j..DigitEnd(s, j)]))
  }

  /**
   `atoi`; None stands for an overflow of int, whose result the language leaves
   undefined. It is defined exactly when the number denoted is an int.
   */
  method Atoi(s: seq<char>) returns (r: Option<int>)
    ensures r == Parse(s)
  {
    hide Value, DigitEnd;
    var p, neg := 0, false;
    while IsSpace(At(s, p))
      invariant p <= |s| && SpaceEnd(s, p) == SpaceEnd(s, 0)
      decreases |s| - p
    {
      p := p + 1;
    }
    if At(s, p) == '-' {
      neg := true;
      p := p + 1;
    } else if At(s, p) == '+' {
      p := p + 1;
    }
    var n := Accumulate(s, p);
    if n == None || (!neg && n.value == INT_MIN) {
      return None;
    }
    return Some(if neg then n.value else -n.value);
  }

  /** The digit loop: the number is built negative, so that the smallest int can be reached. */
  method Accumulate(s: seq<char>, start: nat) returns (r: Option<int>)
    requires start <= |s|
    ensures var v := Value(s[start..DigitEnd(s, start)]);
            r == if 0 - v >= INT_MIN then Some(0 - v) else None
  {
    hide Value, IsDigit, DigitValue;
    var p, n := start, 0;
    ghost var end := DigitEnd(s, p);
    NoDigits(s, start);
    while IsDigit(At(s, p))
      invariant start <= p <= end && AllDigits(s[start..p]) && n == 0 - Value(s[start..p])
      invariant n >= INT_MIN && DigitEnd(s, p) == end
      decreases |s| - p
    {
      assert p < |s| by { NotDigit(); }
      ValueGrows(s, start, p, end);
      var d := DigitOf(s[p]);
      if 10 * n < INT_MIN || 10 * n - d < INT_MIN {
        return None;
      }
      n := 10 * n - d;
      p := p + 1;
    }
    return Some(n);
  }

  function DigitOf(c: char): (d: nat)
    requires IsDigit(c)
    ensures d == DigitValue(c)
  {
    c as int - '0' as int
  }

  lemma NotDigit()
    ensures !IsDigit('\0')
  {
  }

  lemma NoDigits(s: seq<char>, i: nat)
    requires i <= |s|
    ensures AllDigits(s[i..i]) && Value(s[i..i]) == 0
  {
  }

  lemma DigitPrefix(s: seq<char>, i: nat, p: nat, end: nat)
    requires i <= p <= end <= |s| && AllDigits(s[i..end])
    ensures AllDigits(s[i..p])
  {
    assert s[i..p] == s[i..end][..p - i];
  }

  /** Appending a digit multiplies by ten and adds it; longer runs denote larger numbers. */
  lemma {:induction false} ValueGrows(s: seq<char>, i: nat, p: nat, end: nat)
    requires i <= p < end <= |s| && AllDigits(s[i..end])
    ensures AllDigits(s[i..p]) && AllDigits(s[i..p + 1]) && IsDigit(s[p])
    ensures Value(s[i..p + 1]) == 10 * Value(s[i..p]) + DigitValue(s[p])
    ensures Value(s[i..end]) >= Value(s[i..p + 1]) && Value(s[i..end]) >= 10 * Value(s[i..p])
    decreases end
  {
    DigitPrefix(s, i, p, end);
    DigitPrefix(s, i, p + 1, end);
    assert s[i..p + 1] == s[i..p] + [s[p]];
    assert s[i..end][p - i] == s[p];
    assert s[i..p + 1][..p - i] == s[i..p];
    if p + 1 < end {
      DigitPrefix(s, i, end - 1, end);
      ValueGrows(s, i, p, end - 1);
      assert s[i..end][..end - i - 1] == s[i..end - 1];
    }
  }

  // -------------------------------------------------- what the texts denote

  /** The value of a digit character: '0' to '9', then 'a' to 'f'. */
  ghost function DigitOfChar(c: char): Option<nat> {
    var v := c as int;
    if 48 <= v <= 57 then Some(v - 48) else if 97 <= v <= 102 then Some(v - 87) else None
  }

  /** The string is a number in this base: digits below the base, most significant first. */
  ghost predicate Denotes(s: seq<char>, base: nat, x: nat)
    decreases |s|
  {
    && s != []
    && var d := DigitOfChar(s[|s| - 1]);
       && d.Some? && d.value < base
       && if |s| == 1 then x == d.value
          else x >= d.value && exists q :: q * base + d.value == x && Denotes(s[..|s| - 1], base, q)
  }

  lemma CharOfDigit(v: nat)
    requires v < 16
    ensures DigitOfChar(DigitChar(v)) == Some(v)
  {
  }

  lemma {:induction false} AppendDenotes(s: seq<char>, c: char, base: nat, q: nat, d: nat, x: nat)
    requires Denotes(s, base, q) && DigitOfChar(c) == Some(d) && d < base && q * base + d == x
    requires x >= d
    ensures Denotes(s + [c], base, x)
  {
    assert (s + [c])[..|s|] == s;
  }

  lemma Division(x: nat, b: nat)
    requires b > 0
    ensures (x / b) * b + x % b == x && x >= x % b
  {
    ProductIsNatural(x / b, b);
  }

  /** In every base from 2 to 16 the digits of a number denote it, without a leading zero. */
  lemma {:induction false} DigitsDenoteIn(x: nat, base: nat)
    requires 2 <= base <= 16
    ensures Denotes(Digits(x, base), base, x)
    ensures x > 0 ==> Digits(x, base)[0] != '0'
    decreases x
  {
    if x < base {
      OneDigit(x, base);
    } else {
      var q, d := x / base, x % base;
      Shrinks(x, base);
      DivBelow(x, base, 1);
      Division(x, base);
      CharOfDigit(d);
      DigitsDenoteIn(q, base);
      assert Digits(x, base) == Digits(q, base) + [DigitChar(d)];
      hide Digits, DigitChar, Denotes;
      AppendDenotes(Digits(q, base), DigitChar(d), base, q, d, x);
    }
  }

  lemma {:induction false} OneDigit(x: nat, base: nat)
    requires x < base <= 16
    requires base >= 2
    ensures Denotes(Digits(x, base), base, x) && (x > 0 ==> Digits(x, base)[0] != '0')
  {
    CharOfDigit(x);
    DivModUnique(x, 0, x, base);
    assert Digits(x, base) == [DigitChar(x)];
  }

  lemma TopDigit(s: seq<char>, base: nat, x: nat) returns (q: nat, d: nat)
    requires Denotes(s, base, x) && |s| > 1
    ensures Some(d) == DigitOfChar(s[|s| - 1]) && q * base + d == x && Denotes(s[..|s| - 1], base, q)
  {
    d := DigitOfChar(s[|s| - 1]).value;
    q :| q * base + d == x && Denotes(s[..|s| - 1], base, q);
  }

  /** A string denotes at most one number. */
  lemma {:induction false} DenotesOne(s: seq<char>, base: nat, x: nat, y: nat)
    requires Denotes(s, base, x) && Denotes(s, base, y)
    ensures x == y
    decreases |s|
  {
    if |s| > 1 {
      hide Denotes, DigitOfChar;
      var q, d := TopDigit(s, base, x);
      var r, e := TopDigit(s, base, y);
      DenotesOne(s[..|s| - 1], base, q, r);
    }
  }

  /**
   What `printint` prints: a minus sign exactly for a negative number printed signed, and digits
   that denote the number, or 2^32 more if it is negative and printed unsigned.
   */
  lemma {:induction false} TextDenotes(xx: int, base: nat, sign: bool)
    requires INT_MIN <= xx <= INT_MAX && 2 <= base <= 16
    ensures var s := Text(xx, base, sign);
            var minus := if sign && xx < 0 then "-" else "";
            && minus <= s
            && Denotes(s[|minus|..], base, if xx >= 0 then xx else if sign then 0 - xx else xx + 0x1_0000_0000)
            && (xx != 0 ==> |s| > |minus| && s[|minus|] != '0')
  {
    hide Digits, Denotes;
    var x, minus := Magnitude(xx, sign), if sign && xx < 0 then "-" else "";
    DigitsDenoteIn(x, base);
    assert Text(xx, base, sign)[|minus|..] == Digits(x, base);
  }

  /**
   How `atoi` reads any text: white space, one optional sign, and the longest run of digits,
   which may be empty; what follows does not matter.
   */
  lemma {:induction false} ParseReads(spaces: seq<char>, sign: seq<char>, ds: seq<char>, rest: seq<char>)
    requires (forall i :: 0 <= i < |spaces| ==> spaces[i] as int in {32, 9, 10, 11, 12, 13})
    requires sign == "" || sign == "-" || sign == "+"
    requires AllDigits(ds) && (rest != [] ==> !IsDigit(rest[0]))
    requires sign == "" && ds == [] && rest != [] ==> !IsSpace(rest[0]) && rest[0] != '-' && rest[0] != '+'
    ensures Parse(spaces + sign + ds + rest) == Signed(sign == "-", Value(ds))
  {
    var s, i, j := spaces + sign + ds + rest, |spaces|, |spaces| + |sign|;
    assert s[i..] == sign + ds + rest;
    assert At(s, i) == if sign != "" then sign[0] else if ds != [] then ds[0] else At(rest, 0);
    SpacesEnd(s, 0, i);
    assert s[j..j + |ds|] == ds && At(s, j + |ds|) == At(rest, 0);
    NotDigit();
    DigitsEndAt(s, j, j + |ds|);
    hide Value, DigitEnd, SpaceEnd;
  }

  lemma {:induction false} SpacesEnd(s: seq<char>, i: nat, j: nat)
    requires i <= j <= |s| && (forall k :: i <= k < j ==> IsSpace(s[k])) && !IsSpace(At(s, j))
    ensures SpaceEnd(s, i) == j
    decreases j - i
  {
    if i < j {
      SpacesEnd(s, i + 1, j);
    }
  }

  lemma {:induction false} DigitsEndAt(s: seq<char>, i: nat, j: nat)
    requires i <= j <= |s| && AllDigits(s[i..j]) && !IsDigit(At(s, j))
    ensures DigitEnd(s, i) == j
    decreases j - i
  {
    if i < j {
      assert IsDigit(s[i..j][0]) && s[i + 1..j] == s[i..j][1..];
      DigitsEndAt(s, i + 1, j);
    }
  }

  // ------------------------------------------------------------ round trip

  lemma {:induction false} DigitsDenote(x: nat)
    ensures AllDigits(Digits(x, 10)) && Value(Digits(x, 10)) == x
  {
    LastDigit(x, 10);
    CharDenotes(x % 10);
    hide Digits, DigitChar;
    if x / 10 > 0 {
      DigitsDenote(x / 10);
    }
    AppendDigit(Higher(x / 10, 10), DigitChar(x % 10));
  }

  lemma CharDenotes(v: nat)
    requires v < 10
    ensures IsDigit(DigitChar(v)) && DigitValue(DigitChar(v)) == v
  {
  }

  lemma {:induction false} AppendDigit(s: seq<char>, c: char)
    requires AllDigits(s) && IsDigit(c)
    ensures AllDigits(s + [c]) && Value(s + [c]) == 10 * Value(s) + DigitValue(c)
  {
    assert (s + [c])[..|s|] == s;
  }

  lemma {:induction false} DigitsEnd(s: seq<char>, i: nat)
    requires i <= |s| && AllDigits(s[i..])
    ensures DigitEnd(s, i) == |s|
    decreases |s| - i
  {
    if i < |s| {
      assert IsDigit(s[i..][0]);
      assert s[i + 1..] == s[i..][1..];
      DigitsEnd(s, i + 1);
    }
  }

  /** For every int, the smallest included, parsing the printed text gives it back. */
  lemma RoundTrip(xx: int)
    requires INT_MIN <= xx <= INT_MAX
    ensures Parse(Text(xx, 10, true)) == Some(xx)
  {
    hide Digits, Value, Parse;
    var x := Magnitude(xx, true);
    DigitsDenote(x);
    ParseSigned(xx < 0, Digits(x, 10));
  }

  lemma {:induction false} ParseSigned(neg: bool, ds: seq<char>)
    requires ds != [] && AllDigits(ds)
    ensures Parse((if neg then "-" else "") + ds) == Signed(neg, Value(ds))
  {
    hide Value;
    var s, j := (if neg then "-" else "") + ds, if neg then 1 else 0;
    assert s[j..] == ds;
    assert IsDigit(ds[0]) && At(s, 0) == if neg then '-' else ds[0];
    assert SpaceEnd(s, 0) == 0;
    DigitsEnd(s, j);
    assert s[j..|s|] == ds;
  }

  // ------------------------------------------------------ the digit area

  ghost function Pow(b: nat, k: nat): nat { if k == 0 then 1 else b * Pow(b, k - 1) }

  /** A number has at most k digits exactly when it is below base^k. */
  lemma {:induction false} DigitCount(x: nat, base: nat, k: nat)
    requires 2 <= base <= 16 && k >= 1
    ensures |Digits(x, base)| <= k <==> x < Pow(base, k)
    decreases k
  {
    assert Pow(base, 1) == base * Pow(base, 0) == base;
    if k == 1 {
      if x >= base {
        assert |Digits(x, base)| == |Digits(x / base, base)| + 1;
      }
    } else if x < base {
      PowAtLeast(base, k);
    } else {
      DigitCount(x / base, base, k - 1);
      DivBelow(x, base, Pow(base, k - 1));
    }
  }

  lemma {:induction false} PowAtLeast(base: nat, k: nat)
    requires base >= 1 && k >= 1
    ensures Pow(base, k) >= base
  {
    if k > 1 {
      PowAtLeast(base, k - 1);
      var p := Pow(base, k - 1);
      assert base * p >= base * 1 by { ProductIsNatural(base, p - 1); assert base * p == base + base * (p - 1); }
    }
  }

  lemma DivBelow(x: nat, b: nat, p: nat)
    requires b > 0
    ensures x / b < p <==> x < b * p
  {
    var q, r := x / b, x % b;
    assert x == b * q + r;
    if q < p {
      ProductIsNatural(b, p - 1 - q);
      assert b * p == b * q + b + b * (p - 1 - q);
    } else {
      ProductIsNatural(b, q - p);
      assert b * q == b * p + b * (q - p);
    }
  }

  lemma {:induction false} PowGrows(a: nat, b: nat, k: nat)
    requires a <= b
    ensures Pow(a, k) <= Pow(b, k)
  {
    if k > 0 {
      PowGrows(a, b, k - 1);
      var p, q := Pow(a, k - 1), Pow(b, k - 1);
      ProductIsNatural(b - a, q);
      ProductIsNatural(a, q - p);
      assert b * q == a * p + a * (q - p) + (b - a) * q;
    }
  }

  lemma Powers()
    ensures Pow(5, 15) == 30517578125 && Pow(4, 16) == 0x1_0000_0000
    ensures Pow(4, 15) == 0x4000_0000 && Pow(3, 16) == 43046721
  {
    assert Pow(5, 5) == 3125 && Pow(5, 10) == 9765625;
    assert Pow(4, 5) == 1024 && Pow(4, 10) == 0x10_0000;
    assert Pow(3, 8) == 6561;
  }

  ghost predicate Wide(base: nat, sign: bool) { base >= 5 || (base == 4 && !sign) }

  lemma TextFits(xx: int, base: nat, sign: bool)
    requires INT_MIN <= xx <= INT_MAX && base <= 16 && Wide(base, sign)
    ensures |Text(xx, base, sign)| <= 16
  {
    hide Digits, Pow;
    Powers();
    var x := Magnitude(xx, sign);
    if sign && xx < 0 {
      PowGrows(5, base, 15);
      DigitCount(x, base, 15);
    } else {
      PowGrows(4, base, 16);
      DigitCount(x, base, 16);
    }
  }

  /** The input whose text is too long in a narrow base. */
  ghost function Longest(base: nat, sign: bool): int {
    if base == 4 then INT_MIN else if sign then INT_MAX else -1
  }

  lemma TextOverruns(base: nat, sign: bool)
    requires 2 <= base <= 16 && !Wide(base, sign)
    ensures |Text(Longest(base, sign), base, sign)| > 16
  {
    hide Digits, Pow;
    Powers();
    var x := Magnitude(Longest(base, sign), sign);
    if base == 4 {
      DigitCount(x, 4, 15);
    } else {
      PowGrows(base, 3, 16);
      DigitCount(x, base, 16);
    }
  }

  /**
   The 16-byte digit area holds the text of every int exactly in bases from 5 on, and in
   base 4 for unsigned printing; `printf` uses 10 and 16.
   */
  lemma FitsIff(base: nat, sign: bool)
    requires 2 <= base <= 16
    ensures (forall xx :: INT_MIN <= xx <= INT_MAX ==> |Text(xx, base, sign)| <= 16) <==> Wide(base, sign)
  {
    hide Text, Wide;
    if Wide(base, sign) {
      forall xx | INT_MIN <= xx <= INT_MAX ensures |Text(xx, base, sign)| <= 16 {
        TextFits(xx, base, sign);
      }
    } else {
      TextOverruns(base, sign);
    }
  }
}
