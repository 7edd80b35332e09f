/**
 The console's line discipline: a 128-byte ring with three free-running 32-bit indices,
 read, write and edit. Bytes between read and write are committed input; bytes between
 write and edit belong to the line still being typed.
 */
module ConsoleLine {

  const SIZE: nat := 128
  const WRAP: nat := 0x1_0000_0000

  type Byte = x: int | 0 <= x < 256
  const CTRL_D: Byte := 4
  const CTRL_H: Byte := 8
  const NEWLINE: Byte := 10
  const RETURN: Byte := 13
  const CTRL_T: Byte := 20
  const CTRL_U: Byte := 21
  const DELETE: Byte := 127

  /** `canon` is ICANON, `icrnl` is ICRNL. */
  datatype Mode = Mode(canon: bool, icrnl: bool)

  datatype Line = Line(committed: seq<Byte>, editing: seq<Byte>)

  // --------------------------------------------------- input, one character

  function HasRoom(l: Line): bool { |l.committed| + |l.editing| < SIZE }

  function Translate(c: Byte, m: Mode): Byte { if m.icrnl && c == RETURN then NEWLINE else c }

  predicate Ends(c: Byte) { c == NEWLINE || c == CTRL_D }

  /** What ^U leaves of the line being typed: the loop stops at a newline. */
  function Killed(editing: seq<Byte>): seq<Byte> {
    if editing == [] || editing[|editing| - 1] == NEWLINE then editing else Killed(editing[..|editing| - 1])
  }

  /** `consoleintr` on the queue of bytes. */
  function Input(l: Line, c: Byte, m: Mode): Line {
    if !m.canon then
      if c != 0 && HasRoom(l) then Line(l.committed + l.editing + [c], []) else l
    else if c == CTRL_T then l
    else if c == CTRL_U then l.(editing := Killed(l.editing))
    else if c == CTRL_H || c == DELETE then
      if l.editing == [] then l else l.(editing := l.editing[..|l.editing| - 1])
    else if c != 0 && HasRoom(l) then
      var editing := l.editing + [Translate(c, m)];
      if Ends(Translate(c, m)) || |l.committed| + |editing| == SIZE then Line(l.committed + editing, [])
      else l.(editing := editing)
    else l
  }

  /** Whether it signals the readers' semaphore. */
  function Signals(l: Line, c: Byte, m: Mode): bool {
    c != 0 && HasRoom(l)
    && (!m.canon || (c !in [CTRL_T, CTRL_U, CTRL_H, DELETE]
                     && (Ends(Translate(c, m)) || |l.committed| + |l.editing| + 1 == SIZE)))
  }

  // ------------------------------------------------------- what a key does

  /**
   The console before and after a key in canonical mode, case by case: ^T (20) does nothing; ^U
   (21) takes back the last bytes of the line being typed down to a newline; ^H (8) and DELETE
   (127) take back the last one; zero, or any other key on a full ring, does nothing; any other
   key adds its byte, RETURN (13) as newline (10) if ICRNL is set, and commits the line and
   signals at a newline, a ^D (4) or the 128th byte.
   */
  ghost predicate AfterCookedKey(l: Line, c: Byte, m: Mode, l': Line, signalled: bool) {
    var total := |l.committed| + |l.editing|;
    && (c == 20 ==> l' == l && !signalled)
    && (c == 21 ==>
          && l'.committed == l.committed && l'.editing <= l.editing && !signalled
          && (forall i :: |l'.editing| <= i < |l.editing| ==> l.editing[i] != 10)
          && (l'.editing != [] ==> l'.editing[|l'.editing| - 1] == 10))
    && (c == 8 || c == 127 ==>
          && l'.committed == l.committed && !signalled
          && l'.editing == if l.editing == [] then [] else l.editing[..|l.editing| - 1])
    && (c != 8 && c != 20 && c != 21 && c != 127 ==>
          if c == 0 || total >= 128 then l' == l && !signalled
          else
            var b: Byte := if m.icrnl && c == 13 then 10 else c;
            && (signalled <==> b == 10 || b == 4 || total == 127)
            && l' == if signalled then Line(l.committed + l.editing + [b], []) else Line(l.committed, l.editing + [b]))
  }

  /** And in raw mode: a key is committed at once with all that was typed, unless the ring is full. */
  ghost predicate AfterRawKey(l: Line, c: Byte, l': Line, signalled: bool) {
    if c == 0 || |l.committed| + |l.editing| >= 128 then l' == l && !signalled
    else l' == Line(l.committed + l.editing + [c], []) && signalled
  }

  ghost predicate AfterKey(l: Line, c: Byte, m: Mode, l': Line, signalled: bool) {
    if m.canon then AfterCookedKey(l, c, m, l', signalled) else AfterRawKey(l, c, l', signalled)
  }

  lemma {:induction false} KillStopsAtNewline(q: seq<Byte>)
    ensures var r := Killed(q);
            && r <= q && (forall i :: |r| <= i < |q| ==> q[i] != 10) && (r != [] ==> r[|r| - 1] == 10)
  {
    if q != [] && q[|q| - 1] != NEWLINE {
      KillStopsAtNewline(q[..|q| - 1]);
    }
  }

  /** Every key, in both modes. */
  lemma InputIsExact(l: Line, c: Byte, m: Mode)
    requires |l.committed| + |l.editing| <= 128
    ensures AfterKey(l, c, m, Input(l, c, m), Signals(l, c, m))
  {
    KillStopsAtNewline(l.editing);
    assert l.committed + (l.editing + [Translate(c, m)]) == l.committed + l.editing + [Translate(c, m)];
  }

  // ------------------------------------------------- one section of a read

  /** A read in progress: how much is still wanted, what it has, how much more user memory can take. */
  datatype Reader = Reader(canon: bool, want: int, got: seq<Byte>, room: nat)

  /** `fault` says that a byte was taken that user memory refused. */
  datatype Outcome = Outcome(rd: Reader, rest: seq<Byte>, done: bool, fault: bool)

  /** What `consoleread` does with the committed bytes while it holds the lock. */
  function Section(rd: Reader, q: seq<Byte>): Outcome
    decreases |q|
  {
    if rd.want <= 0 then Outcome(rd, q, true, false)
    else if q == [] then Outcome(rd, q, false, false)
    else if rd.canon && q[0] == CTRL_D then Outcome(rd, if rd.got == [] then q[1..] else q, true, false)
    else if rd.room == 0 then Outcome(rd, q[1..], true, true)
    else
      var rd' := rd.(want := rd.want - 1, got := rd.got + [q[0]], room := rd.room - 1);
      if rd.canon && q[0] == NEWLINE then Outcome(rd', q[1..], true, false) else Section(rd', q[1..])
  }

  // --------------------------------------------------- the console in place

  class Console {
    const buf: array<Byte>
    var r: nat
    var w: nat
    var e: nat
    ghost var text: seq<Byte>   // every byte typed and not erased
    ghost var taken: nat        // how much of it was read
    ghost var committed: nat    // how much of it is committed

    ghost predicate Valid()
      reads this, buf
    {
      && buf.Length == SIZE
      && taken <= committed <= |text| <= taken + SIZE
      && r == taken % WRAP && w == committed % WRAP && e == |text| % WRAP
      && forall k :: taken <= k < |text| ==> buf[k % SIZE] == text[k]
    }

    ghost function View(): Line
      requires Valid()
      reads this, buf
    {
      Line(text[taken..committed], text[committed..])
    }

    lemma RingIsBounded()
      requires Valid()
      ensures |View().committed| + |View().editing| <= 128
    {
    }

    /** `consoleinit` */
    constructor ()
      ensures Valid() && View() == Line([], []) && fresh(buf)
    {
      buf := new Byte[SIZE];
      r, w, e := 0, 0, 0;
      text, taken, committed := [], 0, 0;
    }

    /** The test for room, on wrapped indices. */
    method Room() returns (ok: bool)
      requires Valid()
      ensures ok <==> HasRoom(View())
    {
      DistanceIsExact(taken, |text|);
      ok := (e + WRAP - r) % WRAP < SIZE;
    }

    /** Whether the ring is full, on wrapped indices. */
    method Full() returns (full: bool)
      requires Valid()
      ensures full <==> |View().committed| + |View().editing| == SIZE
    {
      DistanceIsExact(taken, |text|);
      full := e == (r + SIZE) % WRAP;
    }

    /** Whether there is anything to erase. */
    method Typed() returns (typed: bool)
      requires Valid()
      ensures typed <==> View().editing != []
    {
      DistanceIsExact(committed, |text|);
      typed := e != w;
    }

    /** Store one byte at the edit index. */
    method Append(c: Byte)
      requires Valid() && HasRoom(View())
      modifies this`e, this`text, buf
      ensures Valid() && text == old(text) + [c]
      ensures View() == old(View()).(editing := old(View()).editing + [c])
    {
      ghost var k := |text|;
      SlotIsExact(k);
      SlotsDiffer(taken, k);
      WrapStep(k);
      buf[e % SIZE] := c;
      e := (e + 1) % WRAP;
      text := text + [c];
    }

    /** Step the edit index back over one byte of the line being typed. */
    method Erase()
      requires Valid() && View().editing != []
      modifies this`e, this`text
      ensures Valid() && text == old(text)[..|old(text)| - 1]
      ensures View() == old(View()).(editing := old(View()).editing[..|old(View()).editing| - 1])
    {
      StepBack(|text|);
      e := (e + WRAP - 1) % WRAP;
      text := text[..|text| - 1];
    }

    method Commit()
      requires Valid()
      modifies this`w, this`committed
      ensures Valid() && View() == Line(old(View()).committed + old(View()).editing, [])
    {
      w := e;
      committed := |text|;
    }

    /** The last byte of the line being typed. */
    method Peek() returns (c: Byte)
      requires Valid() && View().editing != []
      ensures c == View().editing[|View().editing| - 1]
    {
      StepBack(|text|);
      SlotIsExact(|text| - 1);
      c := buf[((e + WRAP - 1) % WRAP) % SIZE];
    }

    method KillLine()
      requires Valid()
      modifies this`e, this`text
      ensures Valid() && View() == old(View()).(editing := Killed(old(View()).editing))
    {
      hide Valid;
      var typed := Typed();
      while typed
        invariant Valid() && (typed <==> View().editing != [])
        invariant View().committed == old(View()).committed
        invariant Killed(View().editing) == Killed(old(View()).editing)
        decreases |View().editing|
      {
        var c := Peek();
        if c == NEWLINE {
          break;
        }
        Erase();
        typed := Typed();
      }
    }

    /** A key in raw mode: everything typed so far is committed with it. */
    method RawKey(c: Byte) returns (signalled: bool)
      requires Valid()
      modifies this`w, this`e, this`text, this`committed, buf
      ensures Valid() && forall m: Mode :: !m.canon ==>
                View() == Input(old(View()), c, m) && (signalled <==> Signals(old(View()), c, m))
    {
      hide Valid;
      signalled := false;
      var ok := Room();
      if c != 0 && ok {
        Append(c);
        Commit();
        signalled := true;
      }
    }

    /** An ordinary key in canonical mode. */
    method CookedKey(c: Byte, m: Mode) returns (signalled: bool)
      requires Valid() && m.canon && c !in [CTRL_T, CTRL_U, CTRL_H, DELETE]
      modifies this`w, this`e, this`text, this`committed, buf
      ensures Valid() && View() == Input(old(View()), c, m)
      ensures signalled <==> Signals(old(View()), c, m)
    {
      hide Valid;
      signalled := false;
      var ok := Room();
      if c != 0 && ok {
        var ch := if m.icrnl && c == RETURN then NEWLINE else c;
        Append(ch);
        var full := Full();
        if ch == NEWLINE || ch == CTRL_D || full {
          Commit();
          signalled := true;
        }
      }
    }

    /** `consoleintr`; the result says whether the semaphore was signalled. */
    method Intr(c: Byte, m: Mode) returns (signalled: bool)
      requires Valid()
      modifies this`w, this`e, this`text, this`committed, buf
      ensures Valid() && AfterKey(old(View()), c, m, View(), signalled)
      ensures Valid() && View() == Input(old(View()), c, m)
      ensures signalled <==> Signals(old(View()), c, m)
    {
      RingIsBounded();
      InputIsExact(View(), c, m);
      hide Valid, AfterKey, Input, Signals;
      signalled := false;
      if !m.canon {
        signalled := RawKey(c);
      } else if c == CTRL_T {
      } else if c == CTRL_U {
        KillLine();
      } else if c == CTRL_H || c == DELETE {
        var typed := Typed();
        if typed {
          Erase();
        }
      } else {
        signalled := CookedKey(c, m);
      }
    }

    /** `consoleread` from where it holds the lock until it has finished or must wait. */
    method ReadSection(rd: Reader) returns (rd': Reader, done: bool)
      requires Valid()
      modifies this`r, this`taken
      ensures Valid() && View().editing == old(View()).editing
      ensures var o := Section(rd, old(View()).committed); rd' == o.rd && View().committed == o.rest && done == o.done
    {
      rd' := rd;
      while rd'.want > 0
        invariant Valid() && View().editing == old(View()).editing
        invariant Section(rd', View().committed) == Section(rd, old(View()).committed)
        decreases |View().committed|
      {
        hide Valid;
        var n := Ready();
        if n == 0 {
          return rd', false;
        }
        var c := Next();
        if rd'.canon && c == CTRL_D {
          if rd'.got != [] {
            PutBack(c);
          }
          return rd', true;
        }
        if rd'.room == 0 {
          return rd', true;
        }
        rd' := rd'.(want := rd'.want - 1, got := rd'.got + [c], room := rd'.room - 1);
        if rd'.canon && c == NEWLINE {
          return rd', true;
        }
      }
      return rd', true;
    }

    /** Take one committed byte. */
    method Next() returns (c: Byte)
      requires Valid() && View().committed != []
      modifies this`r, this`taken
      ensures Valid() && View() == old(View()).(committed := old(View()).committed[1..])
      ensures c == old(View()).committed[0] && CanPutBack(c)
    {
      SlotIsExact(taken);
      WrapStep(taken);
      c := buf[r % SIZE];
      r := (r + 1) % WRAP;
      taken := taken + 1;
    }

    /** The last byte taken is still in the ring. */
    ghost predicate CanPutBack(c: Byte)
      reads this, buf
    {
      buf.Length == SIZE && 0 < taken <= |text| < taken + SIZE && text[taken - 1] == c == buf[(taken - 1) % SIZE]
    }

    method PutBack(ghost c: Byte)
      requires Valid() && CanPutBack(c)
      modifies this`r, this`taken
      ensures Valid() && View() == old(View()).(committed := [c] + old(View()).committed)
    {
      StepBack(taken);
      r := (r + WRAP - 1) % WRAP;
      taken := taken - 1;
    }

    /** `consoleready`: the number of committed bytes. */
    method Ready() returns (n: nat)
      requires Valid()
      ensures n == |View().committed|
    {
      DistanceIsExact(taken, committed);
      n := (w + WRAP - r) % WRAP;
    }
  }

  // ------------------------------------------------------ index arithmetic

  /** Within one ring of each other, the distance of two wrapped indices is the true distance. */
  lemma DistanceIsExact(a: nat, b: nat)
    requires a <= b <= a + SIZE
    ensures (b % WRAP + WRAP - a % WRAP) % WRAP == b - a
    ensures a % WRAP == b % WRAP <==> a == b
    ensures b % WRAP == (a % WRAP + SIZE) % WRAP <==> b == a + SIZE
  {
    var p, q := a / WRAP, b / WRAP;
    assert a == p * WRAP + a % WRAP && b == q * WRAP + b % WRAP;
  }

  /** 128 divides 2^32, so wrapping an index does not move its slot. */
  lemma SlotIsExact(k: nat)
    ensures (k % WRAP) % SIZE == k % SIZE
  {
    var a := k / WRAP;
    assert k == a * WRAP + k % WRAP;
    assert a * WRAP == SIZE * (a * 0x200_0000);
    assert (SIZE * (a * 0x200_0000) + k % WRAP) % SIZE == (k % WRAP) % SIZE;
  }

  lemma SlotsDiffer(r: nat, e: nat)
    requires r <= e < r + SIZE
    ensures forall k :: r <= k < e ==> k % SIZE != e % SIZE
  {
  }

  lemma WrapStep(k: nat)
    ensures (k % WRAP + 1) % WRAP == (k + 1) % WRAP
  {
  }

  lemma StepBack(k: nat)
    requires k > 0
    ensures (k % WRAP + WRAP - 1) % WRAP == (k - 1) % WRAP
  {
  }
}
