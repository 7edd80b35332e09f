/**
 Signal frames on the user stack: delivering a signal saves the interrupted registers
 and the blocked mask in a frame below the user's stack pointer and enters the handler;
 returning from the handler reads them back. User memory is a map from word number
 (address divided by 8) to 64-bit word; a word that is not in the map is not mapped.
 */
module SignalFrames {
  import opened Common

  const WORD: int := 0x1_0000_0000_0000_0000
  type Word = x: int | 0 <= x < 0x1_0000_0000_0000_0000

  /** `struct trapframe` is 70 words; these are the ones the code touches. */
  const TF_WORDS: nat := 70
  const EPC: nat := 3
  const RA: nat := 5
  const SP: nat := 6
  const A0: nat := 14
  const A1: nat := 15
  const A2: nat := 16

  /** `struct rt_sigframe`: 120 words of `ucontext_t`, then trapframe, mask and signal number. */
  const FRAME_BYTES: nat := 1536
  const UC: nat := 120
  const UC_WORDS: nat := 72
  /** Word of `uc_mcontext.__gregs[0]`. */
  const MC_PC: nat := 22

  const SIGRETURN: Word := 0x3F_FFFF_E000
  /** -EINTR as an unsigned word. */
  const MINUS_EINTR: Word := 0xFFFF_FFFF_FFFF_FFFC

  type Mem = map<nat, Word>
  type Trapframe = s: seq<Word> | |s| == 70 witness seq(70, _ => 0)

  /** The parts of a thread that signal delivery touches. */
  datatype Thread = Thread(tf: Trapframe, blocked: Word, ing: Word, mem: Mem)

  ghost predicate Mapped(m: Mem, w: nat, n: nat) { forall x :: w <= x < w + n ==> x in m }

  /** How many of the `n` words from `w` on come before the first that is not mapped. */
  ghost function Before(m: Mem, w: nat, n: nat): (k: nat)
    ensures k <= n && Mapped(m, w, k) && (k < n ==> w + k !in m)
    ensures k == n <==> Mapped(m, w, n)
    decreases n, w
  {
    if n == 0 || w !in m then 0 else 1 + Before(m, w + 1, n - 1)
  }

  /**
   `copyout` of whole words: it copies page by page and gives up at the first page that is
   not mapped, so what precedes the first unmapped word has been written.
   */
  ghost function Put(m: Mem, w: nat, ws: seq<Word>): Mem {
    var k := Before(m, w, |ws|);
    map x | x in m :: if w <= x < w + k then ws[x - w] else m[x]
  }

  lemma PutIs(m: Mem, w: nat, ws: seq<Word>)
    ensures Put(m, w, ws).Keys == m.Keys
    ensures forall x :: x in m && !(w <= x < w + |ws|) ==> Put(m, w, ws)[x] == m[x]
    ensures Mapped(m, w, |ws|) ==> forall x :: w <= x < w + |ws| ==> x in m && Put(m, w, ws)[x] == ws[x - w]
  {
  }

  lemma PutKeepsMapped(m: Mem, w: nat, ws: seq<Word>, v: nat, n: nat)
    ensures Mapped(Put(m, w, ws), v, n) <==> Mapped(m, v, n)
  {
    hide Before;
    assert Put(m, w, ws).Keys == m.Keys;
    if Mapped(Put(m, w, ws), v, n) {
      forall x | v <= x < v + n ensures x in m {
        assert x in Put(m, w, ws);
      }
    }
  }

  /** `copyin` of whole words. */
  ghost function Get(m: Mem, w: nat, n: nat): (r: seq<Word>)
    requires Mapped(m, w, n)
    ensures |r| == n && forall x :: w <= x < w + n ==> x in m && r[x - w] == m[x]
    decreases n, w
  {
    if n == 0 then [] else Get(m, w, n - 1) + [m[w + n - 1]]
  }

  /** `get_sigframe`: below the stack pointer, modulo 2^64, aligned to 16. */
  function FramePtr(sp: Word): (fp: Word)
    ensures fp % 16 == 0 && (sp >= FRAME_BYTES ==> fp <= sp - FRAME_BYTES < fp + 16)
    ensures sp < FRAME_BYTES ==> fp <= sp + WORD - FRAME_BYTES < fp + 16
  {
    var below := (sp + WORD - FRAME_BYTES) % WORD;
    below - below % 16
  }

  ghost function Context(t: Thread, signo: Word): seq<Word> { t.tf + [t.blocked, signo] }

  ghost function Zeros(n: nat): (z: seq<Word>)
    ensures |z| == n && forall i :: 0 <= i < n ==> z[i] == 0
  {
    seq(n, _ => 0)
  }

  /** `signal_frame_setup`. */
  ghost function FrameMem(t: Thread, fp: Word, signo: Word): Mem {
    var b := fp / 8;
    var m := Put(t.mem, b + UC, Context(t, signo));
    if !Mapped(t.mem, b + UC, UC_WORDS) then m else Put(m, b, Zeros(UC))
  }

  ghost function Entry(tf: Trapframe, fp: Word, signo: Word, handler: Word): Trapframe {
    tf[RA := SIGRETURN][EPC := handler][SP := fp][A0 := signo][A1 := 0][A2 := fp]
  }

  /** `setup_rt_frame`: the handler is entered even when the frame could not be written. */
  ghost function Setup(t: Thread, signo: Word, handler: Word): Thread {
    var fp := FramePtr(t.tf[SP]);
    t.(mem := FrameMem(t, fp, signo), tf := Entry(t.tf, fp, signo, handler))
  }

  /** `signal_frame_restore` from a frame at a word boundary. */
  ghost function Restore(t: Thread, fp: Word): Thread {
    var b := fp / 8;
    if !Mapped(t.mem, b + UC, UC_WORDS) then t
    else
      var uc := Get(t.mem, b + UC, UC_WORDS);
      var t1 := t.(tf := uc[..TF_WORDS], blocked := uc[TF_WORDS], ing := uc[TF_WORDS + 1]);
      if !Mapped(t.mem, b, UC) || t.mem[b + MC_PC] == 0 then t1
      else t1.(tf := t1.tf[EPC := t.mem[b + MC_PC]])
  }

  /** `sys_rt_sigreturn`: the system call's result then replaces the restored a0. */
  ghost function SigReturn(t: Thread): Thread {
    var r := Restore(t, t.tf[SP]);
    r.(tf := r.tf[A0 := MINUS_EINTR])
  }

  /**
   What is in memory once a frame has been written at word b: zeros, the registers, the mask and the
   signal when all its words are mapped; no word outside the frame has changed in any case.
   */
  ghost predicate FrameWritten(t: Thread, b: nat, signo: Word, m: Mem) {
    && m.Keys == t.mem.Keys
    && (forall x :: x in m && !(b <= x < b + 192) ==> m[x] == t.mem[x])
    && (Mapped(t.mem, b + 120, 72) && Mapped(t.mem, b, 120) ==>
          && (forall x :: b <= x < b + 120 ==> x in m && m[x] == 0)
          && (forall x :: b + 120 <= x < b + 190 ==> x in m && m[x] == t.tf[x - b - 120])
          && b + 190 in m && b + 191 in m && m[b + 190] == t.blocked && m[b + 191] == signo)
  }

  /**
   What a return reads from the frame at word b: the saved registers, mask and signal number, and
   the program counter the handler asked for; nothing when the frame is not all mapped.
   */
  ghost predicate ReadBack(t: Thread, b: nat, t': Thread) {
    && t'.mem == t.mem
    && if !Mapped(t.mem, b + 120, 72) then t' == t
       else
         && t'.blocked == t.mem[b + 190] && t'.ing == t.mem[b + 191]
         && (forall x :: b + 120 <= x < b + 190 && x != b + 123 ==> t'.tf[x - b - 120] == t.mem[x])
         && t'.tf[3] == if Mapped(t.mem, b, 120) && t.mem[b + 22] != 0 then t.mem[b + 22] else t.mem[b + 123]
  }

  /**
   What delivering a signal does to the registers: the program counter (word 3) is the handler,
   the return address (5) the trampoline, the stack pointer (6) and a2 (16) the frame, a0 (14)
   the signal and a1 (15) zero; every other register, the mask and `sig_ing` are as before.
   */
  ghost predicate Entered(t: Thread, t': Thread, signo: Word, handler: Word) {
    var fp := FramePtr(t.tf[6]);
    && t'.tf[3] == handler && t'.tf[5] == 0x3F_FFFF_E000 && t'.tf[6] == fp
    && t'.tf[14] == signo && t'.tf[15] == 0 && t'.tf[16] == fp
    && (forall i :: 0 <= i < 70 && i !in {3, 5, 6, 14, 15, 16} ==> t'.tf[i] == t.tf[i])
    && t'.blocked == t.blocked && t'.ing == t.ing
  }

  /** What the frame words are, wherever the frame is. */
  lemma FrameHolds(t: Thread, fp: Word, signo: Word)
    ensures FrameWritten(t, fp / 8, signo, FrameMem(t, fp, signo))
  {
    hide Put, Zeros;
    var b, uc := fp / 8, Context(t, signo);
    var m := Put(t.mem, b + UC, uc);
    PutIs(t.mem, b + UC, uc);
    if Mapped(t.mem, b + UC, UC_WORDS) {
      PutIs(m, b, Zeros(UC));
      PutKeepsMapped(t.mem, b + UC, uc, b, UC);
      assert b + 190 - (b + UC) == 70 && b + 191 - (b + UC) == 71;
    }
    hide Mapped;
  }

  lemma RestoreIsReadBack(t: Thread, fp: Word)
    requires fp % 8 == 0
    ensures ReadBack(t, fp / 8, Restore(t, fp))
  {
    hide Get;
  }

  lemma SetupEnters(t: Thread, signo: Word, handler: Word)
    ensures Entered(t, Setup(t, signo, handler), signo, handler)
  {
    hide FrameMem;
  }

  // ------------------------------------------------------- the code in place

  class SignalThread {
    var tf: Trapframe
    var blocked: Word
    var ing: Word
    var mem: Mem

    ghost function View(): Thread
      reads this
    {
      Thread(tf, blocked, ing, mem)
    }

    /** `copyout` of words. */
    method CopyOut(w: nat, ws: seq<Word>) returns (ok: bool)
      modifies this`mem
      ensures ok <==> Mapped(old(mem), w, |ws|)
      ensures mem == Put(old(mem), w, ws)
    {
      var i := 0;
      while i < |ws| && w + i in mem
        invariant 0 <= i <= |ws| && forall x :: w <= x < w + i ==> x in mem
        invariant mem == old(mem)
      {
        i := i + 1;
      }
      ok := i == |ws|;
      assert i == Before(mem, w, |ws|);
      mem := map x | x in mem :: if w <= x < w + i then ws[x - w] else mem[x];
    }

    /** With all its words mapped the frame holds the registers, the mask and the signal over zeros. */
    method SignalFrameSetup(fp: Word, signo: Word) returns (ret: int)
      modifies this`mem
      ensures mem == FrameMem(old(View()), fp, signo)
      ensures FrameWritten(old(View()), fp / 8, signo, mem)
      ensures ret == if Mapped(old(mem), fp / 8 + UC, UC_WORDS) && Mapped(old(mem), fp / 8, UC) then 0 else -1
    {
      PutKeepsMapped(mem, fp / 8 + UC, tf + [blocked, signo], fp / 8, UC);
      FrameHolds(View(), fp, signo);
      hide Put, Mapped, FrameMem, FrameWritten;
      var ok := CopyOut(fp / 8 + UC, tf + [blocked, signo]);
      if !ok {
        return -1;
      }
      var zeros: seq<Word> := seq(UC, _ => 0);
      assert zeros == Zeros(UC);
      ok := CopyOut(fp / 8, zeros);
      return if ok then 0 else -1;
    }

    /** The handler is entered at once, and returning from it leads to the trampoline. */
    method SetupRtFrame(signo: Word, handler: Word)
      modifies this
      ensures Entered(old(View()), View(), signo, handler)
      ensures View() == Setup(old(View()), signo, handler)
    {
      SetupEnters(View(), signo, handler);
      hide Entered, FrameMem, FrameWritten;
      var fp := FramePtr(tf[SP]);
      var ret := SignalFrameSetup(fp, signo);
      tf := tf[RA := SIGRETURN];
      tf := tf[EPC := handler];
      tf := tf[SP := fp];
      tf := tf[A0 := signo];
      tf := tf[A1 := 0];
      tf := tf[A2 := tf[SP]];
    }

    /** `copyin` of words; what was read before a failure is not used. */
    method CopyIn(w: nat, n: nat) returns (ok: bool, ws: seq<Word>)
      ensures ok <==> Mapped(mem, w, n)
      ensures ok ==> ws == Get(mem, w, n)
    {
      ws := [];
      while |ws| < n && w + |ws| in mem
        invariant |ws| <= n && Mapped(mem, w, |ws|) && ws == Get(mem, w, |ws|)
        decreases n - |ws|
      {
        ws := ws + [mem[w + |ws|]];
      }
      ok := |ws| == n;
    }

    method SignalFrameRestore(fp: Word) returns (ret: int)
      requires fp % 8 == 0
      modifies this
      ensures View() == Restore(old(View()), fp) && ReadBack(old(View()), fp / 8, View())
      ensures ret == if Mapped(old(mem), fp / 8 + UC, UC_WORDS) && Mapped(old(mem), fp / 8, UC) then 0 else -1
    {
      RestoreIsReadBack(View(), fp);
      hide ReadBack;
      var ok, uc := CopyIn(fp / 8 + UC, UC_WORDS);
      if !ok {
        return -1;
      }
      blocked := uc[TF_WORDS];
      tf := uc[..TF_WORDS];
      ing := uc[TF_WORDS + 1];
      var riscv;
      ok, riscv := CopyIn(fp / 8, UC);
      if !ok {
        return -1;
      }
      if riscv[MC_PC] != 0 {
        tf := tf[EPC := riscv[MC_PC]];
      }
      return 0;
    }
  }

  // ---------------------------------------------------------------- runs

  /** A context saved by a delivery and not yet restored, and where its frame is. */
  datatype Saved = Saved(fp: Word, tf: Trapframe, blocked: Word, signo: Word)

  datatype State = State(t: Thread, frames: seq<Saved>)

  datatype Event =
    | Deliver(signo: Word, handler: Word)
    | Run(t: Thread)
    | Return

  /** Where the saved context of a frame starts. */
  ghost function Base(f: Saved): nat { f.fp / 8 + UC }

  /** The saved context is in memory. */
  ghost predicate Holds(m: Mem, f: Saved) {
    forall x :: Base(f) <= x < Base(f) + UC_WORDS ==> x in m && m[x] == (f.tf + [f.blocked, f.signo])[x - Base(f)]
  }

  ghost predicate SameFrame(m: Mem, m': Mem, f: Saved) {
    forall x :: Base(f) <= x < Base(f) + UC_WORDS && x in m ==> x in m' && m'[x] == m[x]
  }

  /**
   A signal is delivered when the stack has room for its frame below the live frames.
   Code runs arbitrarily, system calls included, except that it leaves the saved
   contexts alone; it returns with the stack pointer the handler was entered with.
   */
  ghost predicate Enabled(s: State, e: Event) {
    match e
    case Deliver(_, _) =>
      var sp := s.t.tf[SP];
      && sp >= FRAME_BYTES && Mapped(s.t.mem, FramePtr(sp) / 8, UC + UC_WORDS)
      && (s.frames != [] ==> sp <= s.frames[|s.frames| - 1].fp)
    case Run(t) => forall k :: 0 <= k < |s.frames| ==> SameFrame(s.t.mem, t.mem, s.frames[k])
    case Return => s.frames != [] && s.t.tf[SP] == s.frames[|s.frames| - 1].fp
  }

  ghost function Apply(s: State, e: Event): State
    requires Enabled(s, e)
  {
    match e
    case Deliver(signo, handler) =>
      State(Setup(s.t, signo, handler), s.frames + [Saved(FramePtr(s.t.tf[SP]), s.t.tf, s.t.blocked, signo)])
    case Run(t) => s.(t := t)
    case Return => State(SigReturn(s.t), s.frames[..|s.frames| - 1])
  }

  ghost predicate Legal(s: State, es: seq<Event>)
    decreases |es|
  {
    es == [] || (Enabled(s, es[0]) && Legal(Apply(s, es[0]), es[1..]))
  }

  ghost function Exec(s: State, es: seq<Event>): State
    requires Legal(s, es)
    decreases |es|
  {
    if es == [] then s else Exec(Apply(s, es[0]), es[1..])
  }

  /** Live frames are aligned, lie below one another without overlap, and hold their contexts. */
  ghost predicate Inv(s: State) {
    && (forall k :: 0 <= k < |s.frames| ==> s.frames[k].fp % 16 == 0 && Holds(s.t.mem, s.frames[k]))
    && (forall j, k :: 0 <= j < k < |s.frames| ==> s.frames[k].fp + FRAME_BYTES <= s.frames[j].fp)
  }

  /** Writing a frame stores its context and touches no word outside it. */
  lemma FrameMemIs(t: Thread, fp: Word, signo: Word)
    requires fp % 16 == 0 && Mapped(t.mem, fp / 8, UC + UC_WORDS)
    ensures Holds(FrameMem(t, fp, signo), Saved(fp, t.tf, t.blocked, signo))
    ensures Outside(t.mem, FrameMem(t, fp, signo), fp)
  {
    FrameHolds(t, fp, signo);
    hide FrameMem;
  }

  ghost predicate Outside(m: Mem, m': Mem, fp: Word) {
    forall x :: x in m && !(fp / 8 <= x < fp / 8 + UC + UC_WORDS) ==> x in m' && m'[x] == m[x]
  }

  lemma OthersHold(m: Mem, m': Mem, fp: Word, f: Saved)
    requires Outside(m, m', fp) && Holds(m, f) && fp % 16 == 0 && f.fp % 16 == 0 && fp + FRAME_BYTES <= f.fp
    ensures Holds(m', f)
  {
  }

  lemma DeliverKeepsInv(s: State, signo: Word, handler: Word)
    requires Inv(s) && Enabled(s, Deliver(signo, handler))
    ensures Inv(Apply(s, Deliver(signo, handler)))
  {
    hide FrameMem, Outside, Holds;
    var s', fp := Apply(s, Deliver(signo, handler)), FramePtr(s.t.tf[SP]);
    FrameMemIs(s.t, fp, signo);
    var n := |s.frames|;
    assert s'.t.mem == FrameMem(s.t, fp, signo);
    assert s'.frames == s.frames + [Saved(fp, s.t.tf, s.t.blocked, signo)];
    assert n > 0 ==> fp + FRAME_BYTES <= s.frames[n - 1].fp;
    hide FramePtr, Mapped, Apply, Setup, Enabled;
    forall k | 0 <= k < n ensures fp + FRAME_BYTES <= s.frames[k].fp && Holds(s'.t.mem, s.frames[k]) {
      assert k < n - 1 ==> s.frames[n - 1].fp + FRAME_BYTES <= s.frames[k].fp;
      OthersHold(s.t.mem, s'.t.mem, fp, s.frames[k]);
    }
  }

  lemma SigReturnKeepsMem(t: Thread)
    ensures SigReturn(t).mem == t.mem
  {
    hide Get, Mapped;
  }

  lemma StepKeepsInv(s: State, e: Event)
    requires Inv(s) && Enabled(s, e)
    ensures Inv(Apply(s, e))
  {
    hide Setup, SigReturn, FramePtr, Mapped;
    match e
    case Deliver(signo, handler) => DeliverKeepsInv(s, signo, handler);
    case Run(t) =>
      forall k | 0 <= k < |s.frames| ensures Holds(t.mem, s.frames[k]) {
        assert SameFrame(s.t.mem, t.mem, s.frames[k]) && Holds(s.t.mem, s.frames[k]);
      }
    case Return =>
      SigReturnKeepsMem(s.t);
  }

  lemma {:induction false} RunKeepsInv(s: State, es: seq<Event>)
    requires Inv(s) && Legal(s, es)
    ensures Inv(Exec(s, es))
    decreases |es|
  {
    if es != [] {
      StepKeepsInv(s, es[0]);
      RunKeepsInv(Apply(s, es[0]), es[1..]);
    }
  }

  ghost predicate Reachable(s: State) {
    exists t, es :: Legal(State(t, []), es) && s == Exec(State(t, []), es)
  }

  lemma ReachableInv(s: State)
    requires Reachable(s)
    ensures Inv(s)
  {
    var t, es :| Legal(State(t, []), es) && s == Exec(State(t, []), es);
    RunKeepsInv(State(t, []), es);
  }

  // ---------------------------------------------------------- main theorems

  /** In every run, at every nesting depth, frames are 16-aligned and pairwise disjoint. */
  lemma FramesAreDisjoint(s: State, j: nat, k: nat)
    requires Reachable(s) && j < k < |s.frames|
    ensures s.frames[j].fp % 16 == 0 && s.frames[k].fp % 16 == 0
    ensures s.frames[k].fp + FRAME_BYTES <= s.frames[j].fp
  {
    ReachableInv(s);
  }

  /**
   The registers after a return: the saved ones, with the program counter the handler asked
   for, if any, and the system call's result in a0.
   */
  ghost function Resumed(tf: Trapframe, pc: Word): Trapframe {
    tf[EPC := if pc == 0 then tf[EPC] else pc][A0 := MINUS_EINTR]
  }

  ghost function AskedPc(m: Mem, fp: Word): Word {
    if Mapped(m, fp / 8, UC) then m[fp / 8 + MC_PC] else 0
  }

  lemma {:induction false} GetReads(m: Mem, w: nat, c: seq<Word>)
    requires forall x :: w <= x < w + |c| ==> x in m && m[x] == c[x - w]
    ensures Mapped(m, w, |c|) && Get(m, w, |c|) == c
  {
    hide Get;
    var g := Get(m, w, |c|);
    forall i | 0 <= i < |c| ensures g[i] == c[i] {
      var x := w + i;
      assert x in m && g[x - w] == m[x] == c[x - w];
    }
  }

  lemma {:induction false} ContextReadsBack(m: Mem, f: Saved)
    requires Holds(m, f)
    ensures Mapped(m, f.fp / 8 + UC, UC_WORDS)
    ensures Get(m, f.fp / 8 + UC, UC_WORDS) == f.tf + [f.blocked, f.signo]
  {
    hide Get;
    GetReads(m, Base(f), f.tf + [f.blocked, f.signo]);
  }

  lemma RestoreReadsBack(t: Thread, f: Saved)
    requires Holds(t.mem, f)
    ensures var r := Restore(t, f.fp);
            && r.blocked == f.blocked && r.ing == f.signo && r.mem == t.mem
            && r.tf == f.tf[EPC := if AskedPc(t.mem, f.fp) == 0 then f.tf[EPC] else AskedPc(t.mem, f.fp)]
  {
    hide Get, Holds, Mapped;
    ContextReadsBack(t.mem, f);
    var uc := Get(t.mem, f.fp / 8 + UC, UC_WORDS);
    assert uc[..TF_WORDS] == f.tf && uc[TF_WORDS] == f.blocked && uc[TF_WORDS + 1] == f.signo;
    assert f.tf[EPC := f.tf[EPC]] == f.tf;
  }

  lemma ReturnReadsBack(s: State)
    requires Inv(s) && Enabled(s, Return)
    ensures var f, s' := s.frames[|s.frames| - 1], Apply(s, Return);
            && s'.t.tf == Resumed(f.tf, AskedPc(s.t.mem, f.fp))
            && s'.t.blocked == f.blocked && s'.t.ing == f.signo && s'.t.mem == s.t.mem
  {
    var f := s.frames[|s.frames| - 1];
    assert Holds(s.t.mem, f);
    RestoreReadsBack(s.t, f);
  }

  /**
   In every run the return from the innermost handler gives back the interrupted
   registers and the blocked mask, at every nesting depth, and leaves memory alone.
   */
  lemma ReturnGivesBackTheContext(s: State)
    requires Reachable(s) && Enabled(s, Return)
    ensures var f, s' := s.frames[|s.frames| - 1], Apply(s, Return);
            && s'.t.tf == Resumed(f.tf, AskedPc(s.t.mem, f.fp))
            && s'.t.blocked == f.blocked && s'.t.ing == f.signo && s'.t.mem == s.t.mem
  {
    ReachableInv(s);
    ReturnReadsBack(s);
  }

  /**
   In every run a delivery enters the handler with the registers the source sets, saves the
   interrupted ones, and asks for no other program counter.
   */
  lemma DeliveryEntersTheHandler(s: State, signo: Word, handler: Word)
    requires Reachable(s) && Enabled(s, Deliver(signo, handler))
    ensures var s', fp := Apply(s, Deliver(signo, handler)), FramePtr(s.t.tf[SP]);
            && Entered(s.t, s'.t, signo, handler)
            && s'.frames == s.frames + [Saved(fp, s.t.tf, s.t.blocked, signo)]
            && Holds(s'.t.mem, Saved(fp, s.t.tf, s.t.blocked, signo)) && AskedPc(s'.t.mem, fp) == 0
  {
    var fp := FramePtr(s.t.tf[SP]);
    SetupEnters(s.t, signo, handler);
    FrameMemIs(s.t, fp, signo);
    NoPcAsked(s.t, fp, signo);
    hide FrameMem, FramePtr, AskedPc, Entered, Holds;
  }

  lemma NoPcAsked(t: Thread, fp: Word, signo: Word)
    requires fp % 16 == 0 && Mapped(t.mem, fp / 8, UC + UC_WORDS)
    ensures AskedPc(FrameMem(t, fp, signo), fp) == 0
  {
  }

  /**
   The interrupted computation gets all its registers back exactly when no other program
   counter was asked for and a0 already held -EINTR.
   */
  lemma AllRegistersComeBackIff(s: State)
    requires Reachable(s) && Enabled(s, Return)
    ensures var f := s.frames[|s.frames| - 1];
            var pc := AskedPc(s.t.mem, f.fp);
            Apply(s, Return).t.tf == f.tf <==> f.tf[A0] == MINUS_EINTR && (pc == 0 || pc == f.tf[EPC])
  {
    ReturnGivesBackTheContext(s);
    var f := s.frames[|s.frames| - 1];
    var pc := AskedPc(s.t.mem, f.fp);
    var r := Resumed(f.tf, pc);
    hide AskedPc, SigReturn;
    assert r[A0] == MINUS_EINTR && r[EPC] == (if pc == 0 then f.tf[EPC] else pc);
    if f.tf[A0] == MINUS_EINTR && (pc == 0 || pc == f.tf[EPC]) {
      assert r == f.tf;
    }
  }

  /** A thread with all registers zero but the stack pointer, and the first words of memory. */
  ghost function Idle(words: nat): Thread {
    var tf: Trapframe := seq(70, _ => 0);
    Thread(tf[SP := FRAME_BYTES], 0, 0, map x | x in Below(words) :: 0)
  }

  lemma IdleTakesSignal(handler: Word)
    ensures Enabled(State(Idle(192), []), Deliver(2, handler))
    ensures Idle(192).tf[SP] == FRAME_BYTES && Idle(192).tf[A0] == 0 && FramePtr(FRAME_BYTES) == 0
  {
    hide Below;
    assert forall x: nat :: x < 192 ==> x in Below(192);
  }

  lemma {:induction false} OneEventReaches(t: Thread, e: Event)
    requires Enabled(State(t, []), e)
    ensures Reachable(State(t, [])) && Reachable(Apply(State(t, []), e))
  {
    var s := State(t, []);
    assert Legal(s, []) && Exec(s, []) == s;
    hide Apply, Enabled;
    var s1 := Apply(s, e);
    assert [e][0] == e && [e][1..] == [];
    assert Legal(s1, []) && Exec(s1, []) == s1;
    assert Legal(s, [e]);
    assert Exec(s, [e]) == s1;
  }

  lemma ReturnFollows(s: State, signo: Word, handler: Word)
    requires Reachable(s) && Enabled(s, Deliver(signo, handler))
    ensures var s1 := Apply(s, Deliver(signo, handler));
            && Enabled(s1, Return) && s1.frames != [] && s1.frames[|s1.frames| - 1].tf == s.t.tf
  {
    DeliveryEntersTheHandler(s, signo, handler);
    hide Apply, Reachable, AskedPc, Holds, FramePtr;
  }

  /** A delivery and its return that lose a register: a0 was zero and comes back as -EINTR. */
  lemma {:induction false} ReturnCanLoseA0(handler: Word)
    ensures var s := State(Idle(192), []);
            && Enabled(s, Deliver(2, handler))
            && var s1 := Apply(s, Deliver(2, handler));
               Reachable(s1) && Enabled(s1, Return) && Apply(s1, Return).t.tf != s.t.tf
  {
    hide Idle, Apply, Enabled, Reachable, AskedPc, FramePtr;
    var s, d := State(Idle(192), []), Deliver(2, handler);
    IdleTakesSignal(handler);
    OneEventReaches(Idle(192), d);
    ReturnFollows(s, 2, handler);
    AllRegistersComeBackIff(Apply(s, d));
  }

  /** The nesting depth never falls below n during the run. */
  ghost predicate StaysAbove(s: State, es: seq<Event>, n: nat)
    requires Legal(s, es)
    decreases |es|
  {
    |s.frames| >= n && (es == [] || StaysAbove(Apply(s, es[0]), es[1..], n))
  }

  lemma InnerStep(s: State, e: Event, n: nat)
    requires Enabled(s, e) && |s.frames| >= n && |Apply(s, e).frames| >= n
    ensures Apply(s, e).frames[..n] == s.frames[..n]
  {
    hide Setup, SigReturn, FramePtr, Mapped;
  }

  lemma {:induction false} OuterFramesStay(s: State, es: seq<Event>, n: nat)
    requires Legal(s, es) && StaysAbove(s, es, n)
    ensures var s' := Exec(s, es); |s'.frames| >= n && s'.frames[..n] == s.frames[..n]
    decreases |es|
  {
    if es != [] {
      var s1 := Apply(s, es[0]);
      hide Enabled, Apply;
      OuterFramesStay(s1, es[1..], n);
      assert |s1.frames| >= n;
      InnerStep(s, es[0], n);
    }
  }

  /**
   Whatever happens during a handler, nested deliveries and returns included, the return
   that matches a delivery gives back what that delivery interrupted.
   */
  lemma {:induction false} MatchingReturnUnwinds(s: State, signo: Word, handler: Word, es: seq<Event>)
    requires Reachable(s) && Enabled(s, Deliver(signo, handler))
    requires var s1, n := Apply(s, Deliver(signo, handler)), |s.frames| + 1;
             Legal(s1, es) && StaysAbove(s1, es, n) && |Exec(s1, es).frames| == n && Enabled(Exec(s1, es), Return)
    ensures var s2 := Exec(Apply(s, Deliver(signo, handler)), es);
            var s3 := Apply(s2, Return);
            && s3.frames == s.frames && s3.t.blocked == s.t.blocked && s3.t.ing == signo
            && s3.t.tf == Resumed(s.t.tf, AskedPc(s2.t.mem, FramePtr(s.t.tf[SP])))
  {
    hide FrameMem, Mapped, SigReturn, Resumed, AskedPc, FramePtr, Holds;
    ReachableInv(s);
    var s1, n := Apply(s, Deliver(signo, handler)), |s.frames| + 1;
    var s2 := Exec(s1, es);
    StepKeepsInv(s, Deliver(signo, handler));
    RunKeepsInv(s1, es);
    OuterFramesStay(s1, es, n);
    assert s2.frames == s2.frames[..n] == s1.frames[..n] == s1.frames;
    ReturnReadsBack(s2);
    assert s1.frames[..n - 1] == s.frames;
  }
}
