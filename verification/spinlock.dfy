/** The trampoline that serialises a game function with a spinlock, run by any number of threads. */
module Spinlock {

  import opened Options
  import opened ByteImage
  import opened X86Code
  import opened X86Machine

  const LOCK: nat := 0x40
  const COUNTER: nat := 0x48
  const SIZE: nat := 42

  function SpinCode(target: Word64): seq<Instr> {
    [Push(RAX), MovAl(1), XchgAl(55), TestAl, JumpIf(NotEqual, -12), Pop(RAX), LockInc(51), MovImm(R11, target),
     CallReg(R11), StoreByte(23, 0), Ret]
  }

  lemma SpinOffsets(target: Word64)
    ensures var p := SpinCode(target);
            Offset(p, 0) == 0 && Offset(p, 1) == 1 && Offset(p, 2) == 3 && Offset(p, 3) == 9 && Offset(p, 4) == 11 &&
            Offset(p, 5) == 13 && Offset(p, 6) == 14 && Offset(p, 7) == 21 && Offset(p, 8) == 31 &&
            Offset(p, 9) == 34 && Offset(p, 10) == 41 && Offset(p, 11) == 42 && |Assemble(p)| == 42
  {
    hide Offset, Assemble;
    var p := SpinCode(target);
    PrefixSize(p, 11);
    assert p[..11] == p;
    assert Offset(p, 0) == 0 by { FirstOffset(p); }
    OffsetNext(p, 0);
    OffsetNext(p, 1);
    OffsetNext(p, 2);
    OffsetNext(p, 3);
    OffsetNext(p, 4);
    OffsetNext(p, 5);
    OffsetNext(p, 6);
    OffsetNext(p, 7);
    OffsetNext(p, 8);
    OffsetNext(p, 9);
    OffsetNext(p, 10);
  }

  lemma FirstOffset(p: seq<Instr>)
    ensures Offset(p, 0) == 0
  {
  }

  // ---- Threads and memory ----

  /** Where a thread is: in the game's own code, in the trampoline, or in the function that the trampoline calls.
      The second component is the thread as it came in. */
  datatype Where =
    | Outside
    | Inside(t: Thread, entry: Thread)
    | InTarget(t: Thread, entry: Thread)
    | Crashed

  /** The trampoline's page, and the function behind it. */
  datatype Setup = Setup(at: Word64, target: Word64)
  {
    predicate Valid() {
      at + 0x80 < TWO64 && !(at <= target < at + SIZE)
    }

    function Code(): seq<Byte> { Assemble(SpinCode(target)) }

    predicate InCode(a: Word64) { at <= a < at + SIZE }
  }

  /** Besides threads and memory, a count of the times that the lock was won and that the counter was raised. */
  datatype State = State(threads: seq<Where>, mem: Memory, wins: nat, calls: nat)

  datatype Event =
    | Enter(i: nat, thread: Thread)
    | Go(i: nat)
    | Back(i: nat, thread: Thread)
    | Elsewhere(mem: Memory)

  /** The lock byte and the counter are not touched. */
  predicate PageKept(s: Setup, m: Memory, n: Memory)
    requires s.Valid()
  {
    Mapped(s, m) ==> Mapped(s, n) && n[s.at + LOCK] == m[s.at + LOCK] && CounterBytes(s, n) == CounterBytes(s, m)
  }

  /** What can happen.  A thread enters with its return address on the stack; the called function returns where it was
      called from, with the stack and its pointer as they were before the call; everything else in the process leaves
      the page alone. */
  predicate Enabled(s: Setup, x: State, e: Event)
    requires s.Valid()
  {
    match e
    case Enter(i, t) =>
      i < |x.threads| && x.threads[i].Outside? && t.rip == s.at && |t.stack| > 0 && !s.InCode(t.Top())
    case Go(i) => i < |x.threads| && x.threads[i].Inside?
    case Back(i, t) =>
      i < |x.threads| && x.threads[i].InTarget? && t.rip == s.at + 34 && |x.threads[i].t.stack| > 0 &&
      t.stack == x.threads[i].t.stack[..|x.threads[i].t.stack| - 1] && t.reg[RSP] == More8(x.threads[i].t.reg[RSP])
    case Elsewhere(m) => PageKept(s, x.mem, m)
  }

  /** Where a thread is after a step from t to u: still in the code, called out of it, or returned. */
  function Moved(s: Setup, t: Thread, u: Thread, entry: Thread): Where {
    if s.InCode(u.rip) then Inside(u, entry)
    else if t.rip == s.at + 31 then InTarget(u, entry)
    else Outside
  }

  function Apply(s: Setup, x: State, e: Event): State
    requires s.Valid() && Enabled(s, x, e)
  {
    match e
    case Enter(i, t) => x.(threads := x.threads[i := Inside(t, t)])
    case Go(i) =>
      var t := x.threads[i].t;
      (match Step(s.Code(), s.at, Running(t, x.mem))
       case Running(u, m) =>
         State(x.threads[i := Moved(s, t, u, x.threads[i].entry)], m,
               if t.rip == s.at + 3 && u.Low(RAX) == 0 then x.wins + 1 else x.wins,
               if t.rip == s.at + 14 then x.calls + 1 else x.calls)
       case Fault => x.(threads := x.threads[i := Crashed]))
    case Back(i, t) => x.(threads := x.threads[i := Inside(t, x.threads[i].entry)])
    case Elsewhere(m) => x.(mem := m)
  }

  predicate Possible(s: Setup, x: State, run: seq<Event>)
    requires s.Valid()
    decreases |run|
  {
    |run| == 0 || (Enabled(s, x, run[0]) && Possible(s, Apply(s, x, run[0]), run[1..]))
  }

  function After(s: Setup, x: State, run: seq<Event>): State
    requires s.Valid() && Possible(s, x, run)
    decreases |run|
  {
    if |run| == 0 then x else After(s, Apply(s, x, run[0]), run[1..])
  }

  /** As the trampoline is emitted: nobody in it, lock and counter zero. */
  predicate Initial(s: Setup, x: State)
    requires s.Valid()
  {
    (forall i | 0 <= i < |x.threads| :: x.threads[i].Outside?) && x.wins == 0 && x.calls == 0 &&
    Mapped(s, x.mem) && x.mem[s.at + LOCK] == 0 && CounterOf(s, x.mem) == 0
  }

  predicate Mapped(s: Setup, m: Memory)
    requires s.Valid()
  {
    s.at + 0x40 in m && s.at + 0x48 in m && s.at + 0x49 in m && s.at + 0x4A in m && s.at + 0x4B in m
  }

  function CounterBytes(s: Setup, m: Memory): seq<Byte>
    requires s.Valid() && Mapped(s, m)
  {
    [m[s.at + 0x48], m[s.at + 0x49], m[s.at + 0x4A], m[s.at + 0x4B]]
  }

  function CounterOf(s: Setup, m: Memory): nat
    requires s.Valid() && Mapped(s, m)
  {
    FromBytes(CounterBytes(s, m))
  }

  // ---- The invariant ----

  predicate SameRegs(t: Thread, e: Thread, r: Reg, q: Reg) {
    forall k | 0 <= k < 16 && k != r && k != q :: t.reg[k] == e.reg[k]
  }

  function Less8(w: Word64): Word64 {
    var v: int := w;
    Wrap(v - 8)
  }

  function More8(w: Word64): Word64 {
    var v: int := w;
    Wrap(v + 8)
  }

  /** rax is on the stack, and everything else as at entry. */
  predicate Spinning(t: Thread, e: Thread) {
    t.stack == e.stack + [e.reg[RAX]] && t.reg[RSP] == Less8(e.reg[RSP]) && SameRegs(t, e, RAX, RSP)
  }

  /** What holds of a thread at each instruction. */
  predicate LocalInside(s: Setup, t: Thread, e: Thread)
    requires s.Valid()
  {
    var off := t.rip - s.at;
    e.rip == s.at && |e.stack| > 0 && !s.InCode(e.Top()) &&
    (off == 0 || off == 1 || off == 3 || off == 9 || off == 11 || off == 13 || off == 14 || off == 21 || off == 31 ||
     off == 34 || off == 41) &&
    (off == 0 ==> t.reg == e.reg && t.stack == e.stack) &&
    (1 <= off <= 13 ==> Spinning(t, e)) &&
    (off == 3 ==> t.Low(RAX) == 1) &&
    (off == 11 ==> t.flags == OfTest(8, t.Low(RAX))) &&
    (14 <= off <= 21 ==> t.reg == e.reg && t.stack == e.stack) &&
    (off == 31 ==> t.reg == e.reg[R11 := s.target] && t.stack == e.stack) &&
    (34 <= off ==> t.stack == e.stack && t.reg[RSP] == e.reg[RSP])
  }

  /** In the called function: as at entry but for r11 and the return address on the stack. */
  predicate LocalTarget(s: Setup, t: Thread, e: Thread)
    requires s.Valid()
  {
    e.rip == s.at && |e.stack| > 0 && !s.InCode(e.Top()) &&
    t.rip == s.target && t.stack == e.stack + [s.at + 34] && t.reg[RSP] == Less8(e.reg[RSP]) && SameRegs(t, e, R11, RSP)
  }

  predicate Local(s: Setup, w: Where)
    requires s.Valid()
  {
    match w
    case Outside => true
    case Inside(t, e) => LocalInside(s, t, e)
    case InTarget(t, e) => LocalTarget(s, t, e)
    case Crashed => false
  }

  /** Between the winning exchange and the unlocking store. */
  predicate Holds(s: Setup, w: Where)
    requires s.Valid()
  {
    match w
    case Inside(t, _) =>
      var off := t.rip - s.at;
      13 <= off <= 34 || ((off == 9 || off == 11) && t.Low(RAX) == 0)
    case InTarget(_, _) => true
    case _ => false
  }

  /** Holding the lock, but not counted yet. */
  predicate Uncounted(s: Setup, w: Where)
    requires s.Valid()
  {
    Holds(s, w) && w.Inside? && w.t.rip <= s.at + 14
  }

  predicate LockTells(s: Setup, x: State)
    requires s.Valid() && Mapped(s, x.mem)
  {
    x.mem[s.at + LOCK] != 0 <==> exists i | 0 <= i < |x.threads| :: Holds(s, x.threads[i])
  }

  predicate OneHolder(s: Setup, x: State)
    requires s.Valid()
  {
    forall i, j | 0 <= i < j < |x.threads| :: !(Holds(s, x.threads[i]) && Holds(s, x.threads[j]))
  }

  predicate WinsCounted(s: Setup, x: State)
    requires s.Valid()
  {
    x.wins == x.calls + if exists i | 0 <= i < |x.threads| :: Uncounted(s, x.threads[i]) then 1 else 0
  }

  predicate Invariant(s: Setup, x: State)
    requires s.Valid()
  {
    (forall i | 0 <= i < |x.threads| :: Local(s, x.threads[i])) &&
    Mapped(s, x.mem) && LockTells(s, x) && OneHolder(s, x) && WinsCounted(s, x) &&
    CounterOf(s, x.mem) == x.calls % 0x1_0000_0000
  }

  // ---- What each instruction does ----

  /** The step from instruction k, which ends at offset `next`. */
  lemma StepAt(s: Setup, k: nat, t: Thread, m: Memory)
    requires s.Valid() && k < 11 && t.rip == s.at + Offset(SpinCode(s.target), k)
    ensures s.at + Offset(SpinCode(s.target), k + 1) < TWO64
    ensures Step(s.Code(), s.at, Running(t, m)) ==
            Exec(SpinCode(s.target)[k], t.(rip := s.at + Offset(SpinCode(s.target), k + 1)), m)
  {
    hide Offset, Assemble, Exec, Step, Encode;
    SpinOffsets(s.target);
    StepExecutes(SpinCode(s.target), s.at, k, Running(t, m));
  }

  /** What a step of the emitted code does to memory and to who holds the lock. */
  predicate Effect(s: Setup, t: Thread, e: Thread, m: Memory, u: Thread, n: Memory)
    requires s.Valid() && Mapped(s, m)
  {
    var before, after := Inside(t, e), Moved(s, t, u, e);
    var off := t.rip - s.at;
    Local(s, after) && Mapped(s, n) &&
    (if off == 3 then
       !Holds(s, before) && n[s.at + LOCK] == 1 && CounterBytes(s, n) == CounterBytes(s, m) &&
       (Holds(s, after) <==> m[s.at + LOCK] == 0) && (Uncounted(s, after) <==> m[s.at + LOCK] == 0) &&
       (u.Low(RAX) == 0 <==> m[s.at + LOCK] == 0)
     else if off == 34 then
       Holds(s, before) && !Holds(s, after) && n[s.at + LOCK] == 0 && CounterBytes(s, n) == CounterBytes(s, m)
     else if off == 14 then
       Uncounted(s, before) && Holds(s, after) && !Uncounted(s, after) && n[s.at + LOCK] == m[s.at + LOCK] &&
       CounterOf(s, n) == (CounterOf(s, m) + 1) % 0x1_0000_0000
     else
       n == m && (Holds(s, before) <==> Holds(s, after)) && (Uncounted(s, before) <==> Uncounted(s, after)))
  }

  /** The step leads somewhere, and has the effect. */
  predicate Goes(s: Setup, t: Thread, e: Thread, m: Memory)
    requires s.Valid() && Mapped(s, m)
  {
    match Step(s.Code(), s.at, Running(t, m))
    case Running(u, n) => Effect(s, t, e, m, u, n)
    case Fault => false
  }

  lemma PushGoes(s: Setup, t: Thread, e: Thread, m: Memory)
    requires s.Valid() && Mapped(s, m) && LocalInside(s, t, e) && t.rip == s.at
    ensures Goes(s, t, e, m)
  {
    hide Offset, Assemble, Step;
    SpinOffsets(s.target);
    StepAt(s, 0, t, m);
  }

  lemma SetGoes(s: Setup, t: Thread, e: Thread, m: Memory)
    requires s.Valid() && Mapped(s, m) && LocalInside(s, t, e) && t.rip == s.at + 1
    ensures Goes(s, t, e, m)
  {
    hide Offset, Assemble, Step;
    SpinOffsets(s.target);
    StepAt(s, 1, t, m);
  }

  lemma ExchangeGoes(s: Setup, t: Thread, e: Thread, m: Memory)
    requires s.Valid() && Mapped(s, m) && LocalInside(s, t, e) && t.rip == s.at + 3
    ensures Goes(s, t, e, m)
  {
    hide Offset, Assemble, Step;
    SpinOffsets(s.target);
    StepAt(s, 2, t, m);
  }

  lemma TestGoes(s: Setup, t: Thread, e: Thread, m: Memory)
    requires s.Valid() && Mapped(s, m) && LocalInside(s, t, e) && t.rip == s.at + 9
    ensures Goes(s, t, e, m)
  {
    hide Offset, Assemble, Step;
    SpinOffsets(s.target);
    StepAt(s, 3, t, m);
  }

  lemma BranchGoes(s: Setup, t: Thread, e: Thread, m: Memory)
    requires s.Valid() && Mapped(s, m) && LocalInside(s, t, e) && t.rip == s.at + 11
    ensures Goes(s, t, e, m)
  {
    hide Offset, Assemble, Step;
    SpinOffsets(s.target);
    StepAt(s, 4, t, m);
  }

  lemma PopGoes(s: Setup, t: Thread, e: Thread, m: Memory)
    requires s.Valid() && Mapped(s, m) && LocalInside(s, t, e) && t.rip == s.at + 13
    ensures Goes(s, t, e, m)
  {
    hide Offset, Assemble, Step;
    SpinOffsets(s.target);
    StepAt(s, 5, t, m);
  }

  lemma LoadNext(m: Memory, a: Word64, n: nat, rest: seq<Byte>)
    requires a + 1 < TWO64 && a in m && LoadBytes(m, a + 1, n) == Some(rest)
    ensures LoadBytes(m, a, n + 1) == Some([m[a]] + rest)
  {
    assert Wrap(a + 1) == a + 1;
  }

  lemma LoadFour(m: Memory, a: Word64)
    requires a + 4 < TWO64 && a in m && a + 1 in m && a + 2 in m && a + 3 in m
    ensures LoadBytes(m, a, 4) == Some([m[a], m[a + 1], m[a + 2], m[a + 3]])
  {
    assert LoadBytes(m, a + 4, 0) == Some([]);
    LoadNext(m, a + 3, 0, []);
    assert [m[a + 3]] + [] == [m[a + 3]];
    LoadNext(m, a + 2, 1, [m[a + 3]]);
    LoadNext(m, a + 1, 2, [m[a + 2]] + [m[a + 3]]);
    LoadNext(m, a, 3, [m[a + 1]] + ([m[a + 2]] + [m[a + 3]]));
    assert [m[a]] + ([m[a + 1]] + ([m[a + 2]] + [m[a + 3]])) == [m[a], m[a + 1], m[a + 2], m[a + 3]];
  }

  lemma StoreFour(m: Memory, a: Word64, b: seq<Byte>)
    requires a + 4 < TWO64 && |b| == 4
    ensures StoreBytes(m, a, b) == m[a := b[0]][a + 1 := b[1]][a + 2 := b[2]][a + 3 := b[3]]
  {
    var m1 := m[a := b[0]];
    var m2 := m1[a + 1 := b[1]];
    var m3 := m2[a + 2 := b[2]];
    assert b[1..][1..] == b[2..] && b[2..][1..] == b[3..];
    assert StoreBytes(m3, a + 3, b[3..]) == StoreBytes(m3[a + 3 := b[3]], a + 4, []);
    assert StoreBytes(m2, a + 2, b[2..]) == StoreBytes(m3, a + 3, b[3..]);
    assert StoreBytes(m1, a + 1, b[1..]) == StoreBytes(m2, a + 2, b[2..]);
  }

  /** Raising the counter changes nothing but the counter. */
  lemma Raised(s: Setup, m: Memory)
    requires s.Valid() && Mapped(s, m)
    ensures LoadBytes(m, s.at + COUNTER, 4) == Some(CounterBytes(s, m))
    ensures var v := (CounterOf(s, m) + 1) % 0x1_0000_0000;
            var n := StoreBytes(m, s.at + COUNTER, ToBytes(v, 4));
            Mapped(s, n) && n[s.at + LOCK] == m[s.at + LOCK] && CounterOf(s, n) == v
  {
    hide FromBytes, ToBytes, LoadBytes, StoreBytes;
    var v := (CounterOf(s, m) + 1) % 0x1_0000_0000;
    var b := ToBytes(v, 4);
    LoadFour(m, s.at + COUNTER);
    StoreFour(m, s.at + COUNTER, b);
    var n := StoreBytes(m, s.at + COUNTER, b);
    assert CounterBytes(s, n) == b;
    FourBytes(v);
  }

  lemma CounterIs(s: Setup, m: Memory)
    requires s.Valid() && Mapped(s, m)
    ensures CounterOf(s, m) == FromBytes(CounterBytes(s, m))
  {
  }

  lemma FourBytes(v: nat)
    requires v < 0x1_0000_0000
    ensures FromBytes(ToBytes(v, 4)) == v
  {
    assert Power256(4) == 0x1_0000_0000 by { assert Power256(2) == 0x1_0000; }
    FromToBytes(v, 4);
  }

  lemma CountGoes(s: Setup, t: Thread, e: Thread, m: Memory)
    requires s.Valid() && Mapped(s, m) && LocalInside(s, t, e) && t.rip == s.at + 14
    ensures Goes(s, t, e, m)
  {
    hide Offset, Assemble, Step, CounterBytes, CounterOf, LoadBytes, StoreBytes, ToBytes;
    SpinOffsets(s.target);
    StepAt(s, 6, t, m);
    Raised(s, m);
    CounterIs(s, m);
  }

  lemma TargetGoes(s: Setup, t: Thread, e: Thread, m: Memory)
    requires s.Valid() && Mapped(s, m) && LocalInside(s, t, e) && t.rip == s.at + 21
    ensures Goes(s, t, e, m)
  {
    hide Offset, Assemble, Step;
    SpinOffsets(s.target);
    StepAt(s, 7, t, m);
  }

  lemma CallGoes(s: Setup, t: Thread, e: Thread, m: Memory)
    requires s.Valid() && Mapped(s, m) && LocalInside(s, t, e) && t.rip == s.at + 31
    ensures Goes(s, t, e, m)
  {
    hide Offset, Assemble, Step;
    SpinOffsets(s.target);
    StepAt(s, 8, t, m);
  }

  lemma UnlockGoes(s: Setup, t: Thread, e: Thread, m: Memory)
    requires s.Valid() && Mapped(s, m) && LocalInside(s, t, e) && t.rip == s.at + 34
    ensures Goes(s, t, e, m)
  {
    hide Offset, Assemble, Step;
    SpinOffsets(s.target);
    StepAt(s, 9, t, m);
  }

  lemma ReturnGoes(s: Setup, t: Thread, e: Thread, m: Memory)
    requires s.Valid() && Mapped(s, m) && LocalInside(s, t, e) && t.rip == s.at + 41
    ensures Goes(s, t, e, m)
  {
    hide Offset, Assemble, Step;
    SpinOffsets(s.target);
    StepAt(s, 10, t, m);
  }

  /** From anywhere in the code. */
  lemma EveryStepGoes(s: Setup, t: Thread, e: Thread, m: Memory)
    requires s.Valid() && Mapped(s, m) && LocalInside(s, t, e)
    ensures Goes(s, t, e, m)
  {
    hide Goes, Spinning;
    if t.rip == s.at { PushGoes(s, t, e, m); }
    else if t.rip == s.at + 1 { SetGoes(s, t, e, m); }
    else if t.rip == s.at + 3 { ExchangeGoes(s, t, e, m); }
    else if t.rip == s.at + 9 { TestGoes(s, t, e, m); }
    else if t.rip == s.at + 11 { BranchGoes(s, t, e, m); }
    else if t.rip == s.at + 13 { PopGoes(s, t, e, m); }
    else if t.rip == s.at + 14 { CountGoes(s, t, e, m); }
    else if t.rip == s.at + 21 { TargetGoes(s, t, e, m); }
    else if t.rip == s.at + 31 { CallGoes(s, t, e, m); }
    else if t.rip == s.at + 34 { UnlockGoes(s, t, e, m); }
    else { ReturnGoes(s, t, e, m); }
  }

  // ---- All threads together ----

  /** Thread i goes from one place to another, and nobody else moves. */
  predicate OneMoves(x: State, y: State, i: nat) {
    i < |x.threads| == |y.threads| && forall k | 0 <= k < |x.threads| && k != i :: y.threads[k] == x.threads[k]
  }

  /** Moving without winning, counting or unlocking keeps the lock's bookkeeping. */
  lemma QuietMove(s: Setup, x: State, y: State, i: nat)
    requires s.Valid() && Invariant(s, x) && OneMoves(x, y, i) && Mapped(s, y.mem)
    requires Local(s, y.threads[i]) && (Holds(s, x.threads[i]) <==> Holds(s, y.threads[i]))
    requires Uncounted(s, x.threads[i]) <==> Uncounted(s, y.threads[i])
    requires y.wins == x.wins && y.calls == x.calls
    requires y.mem[s.at + LOCK] == x.mem[s.at + LOCK] && CounterOf(s, y.mem) == CounterOf(s, x.mem)
    ensures Invariant(s, y)
  {
    hide Holds, Uncounted, Local, CounterOf;
    assert forall k | 0 <= k < |x.threads| :: Holds(s, y.threads[k]) <==> Holds(s, x.threads[k]);
    assert forall k | 0 <= k < |x.threads| :: Uncounted(s, y.threads[k]) <==> Uncounted(s, x.threads[k]);
  }

  /** An exchange that finds the lock free wins it; otherwise nothing changes. */
  lemma ExchangeKeeps(s: Setup, x: State, y: State, i: nat)
    requires s.Valid() && Invariant(s, x) && OneMoves(x, y, i) && Mapped(s, y.mem)
    requires Local(s, y.threads[i]) && !Holds(s, x.threads[i])
    requires Holds(s, y.threads[i]) <==> x.mem[s.at + LOCK] == 0
    requires Uncounted(s, y.threads[i]) <==> x.mem[s.at + LOCK] == 0
    requires y.wins == (if x.mem[s.at + LOCK] == 0 then x.wins + 1 else x.wins) && y.calls == x.calls
    requires y.mem[s.at + LOCK] == 1 && CounterOf(s, y.mem) == CounterOf(s, x.mem)
    ensures Invariant(s, y)
  {
    UncountedHold(s, x);
    hide Holds, Uncounted, Local, CounterOf;
    if x.mem[s.at + LOCK] == 0 {
      assert forall k | 0 <= k < |x.threads| :: !Holds(s, x.threads[k]);
    } else {
      var h :| 0 <= h < |x.threads| && Holds(s, x.threads[h]);
      assert Holds(s, y.threads[h]);
      assert forall k | 0 <= k < |x.threads| :: Holds(s, y.threads[k]) <==> Holds(s, x.threads[k]);
      assert forall k | 0 <= k < |x.threads| :: Uncounted(s, y.threads[k]) <==> Uncounted(s, x.threads[k]);
    }
  }

  lemma UncountedHold(s: Setup, x: State)
    requires s.Valid()
    ensures forall k | 0 <= k < |x.threads| :: Uncounted(s, x.threads[k]) ==> Holds(s, x.threads[k])
  {
  }

  /** Raising the counter accounts for the holder. */
  lemma CountKeeps(s: Setup, x: State, y: State, i: nat)
    requires s.Valid() && Invariant(s, x) && OneMoves(x, y, i) && Mapped(s, y.mem)
    requires Local(s, y.threads[i]) && Holds(s, x.threads[i]) && Holds(s, y.threads[i])
    requires Uncounted(s, x.threads[i]) && !Uncounted(s, y.threads[i])
    requires y.wins == x.wins && y.calls == x.calls + 1
    requires y.mem[s.at + LOCK] == x.mem[s.at + LOCK] &&
             CounterOf(s, y.mem) == (CounterOf(s, x.mem) + 1) % 0x1_0000_0000
    ensures Invariant(s, y)
  {
    UncountedHold(s, x);
    NextCount(x.calls);
    hide Holds, Uncounted, Local, CounterOf;
    assert forall k | 0 <= k < |x.threads| :: Holds(s, y.threads[k]) <==> Holds(s, x.threads[k]);
    assert forall k | 0 <= k < |x.threads| :: !Uncounted(s, y.threads[k]);
  }

  lemma NextCount(n: nat)
    ensures (n % 0x1_0000_0000 + 1) % 0x1_0000_0000 == (n + 1) % 0x1_0000_0000
  {
  }

  /** The unlocking store ends the only holder's time. */
  lemma UnlockKeeps(s: Setup, x: State, y: State, i: nat)
    requires s.Valid() && Invariant(s, x) && OneMoves(x, y, i) && Mapped(s, y.mem)
    requires Local(s, y.threads[i]) && Holds(s, x.threads[i]) && !Holds(s, y.threads[i]) && !Uncounted(s, x.threads[i])
    requires y.wins == x.wins && y.calls == x.calls
    requires y.mem[s.at + LOCK] == 0 && CounterOf(s, y.mem) == CounterOf(s, x.mem)
    ensures Invariant(s, y)
  {
    UncountedHold(s, x);
    UncountedHold(s, y);
    hide Holds, Uncounted, Local, CounterOf;
    assert forall k | 0 <= k < |x.threads| :: !Holds(s, y.threads[k]);
    assert forall k | 0 <= k < |x.threads| :: !Uncounted(s, x.threads[k]);
  }

  /** A step of the emitted code keeps the invariant. */
  lemma GoKeeps(s: Setup, x: State, i: nat)
    requires s.Valid() && Invariant(s, x) && Enabled(s, x, Go(i))
    ensures Invariant(s, Apply(s, x, Go(i)))
  {
    hide Step, Invariant, Holds, LocalInside, CounterBytes;
    InvariantAt(s, x, i);
    var t, e := x.threads[i].t, x.threads[i].entry;
    EveryStepGoes(s, t, e, x.mem);
    var y := Apply(s, x, Go(i));
    CounterIs(s, x.mem);
    CounterIs(s, y.mem);
    if t.rip == s.at + 3 {
      ExchangeKeeps(s, x, y, i);
    } else if t.rip == s.at + 34 {
      UnlockKeeps(s, x, y, i);
    } else if t.rip == s.at + 14 {
      CountKeeps(s, x, y, i);
    } else {
      QuietMove(s, x, y, i);
    }
  }

  lemma InvariantAt(s: Setup, x: State, i: nat)
    requires s.Valid() && Invariant(s, x) && i < |x.threads|
    ensures Local(s, x.threads[i]) && Mapped(s, x.mem)
  {
  }

  /** Every event keeps the invariant. */
  lemma EventKeeps(s: Setup, x: State, e: Event)
    requires s.Valid() && Invariant(s, x) && Enabled(s, x, e)
    ensures Invariant(s, Apply(s, x, e))
  {
    match e {
      case Go(i) => GoKeeps(s, x, i);
      case Enter(i, t) => QuietMove(s, x, Apply(s, x, e), i);
      case Back(i, t) => BackKeeps(s, x, i, t);
      case Elsewhere(m) => ElsewhereKeeps(s, x, m);
    }
  }

  lemma BackKeeps(s: Setup, x: State, i: nat, t: Thread)
    requires s.Valid() && Invariant(s, x) && Enabled(s, x, Back(i, t))
    ensures Invariant(s, Apply(s, x, Back(i, t)))
  {
    hide Invariant;
    InvariantAt(s, x, i);
    QuietMove(s, x, Apply(s, x, Back(i, t)), i);
  }

  lemma ElsewhereKeeps(s: Setup, x: State, m: Memory)
    requires s.Valid() && Invariant(s, x) && Enabled(s, x, Elsewhere(m))
    ensures Invariant(s, x.(mem := m))
  {
    hide Holds, Uncounted, Local, CounterBytes;
  }

  lemma InitialInvariant(s: Setup, x: State)
    requires s.Valid() && Initial(s, x)
    ensures Invariant(s, x)
  {
  }

  /** The invariant holds after every run, whatever the threads and their interleaving. */
  lemma {:induction false} Always(s: Setup, x: State, run: seq<Event>)
    requires s.Valid() && Invariant(s, x) && Possible(s, x, run)
    ensures Invariant(s, After(s, x, run))
    decreases |run|
  {
    hide Invariant, Apply, Enabled;
    if |run| > 0 {
      EventKeeps(s, x, run[0]);
      Always(s, Apply(s, x, run[0]), run[1..]);
    }
  }

  /** The trampoline is a correct spinlock. */
  lemma MutualExclusion(s: Setup, x: State, run: seq<Event>, i: nat, j: nat)
    requires s.Valid() && Initial(s, x) && Possible(s, x, run)
    requires i < |After(s, x, run).threads| && j < |After(s, x, run).threads|
    ensures var y := After(s, x, run);
            Holds(s, y.threads[i]) && Holds(s, y.threads[j]) ==> i == j
  {
    hide Initial, Holds, Local, Possible, After;
    InitialInvariant(s, x);
    Always(s, x, run);
  }

  /** The lock byte is zero exactly when no thread is between its winning exchange and the unlocking store. */
  lemma LockByteTells(s: Setup, x: State, run: seq<Event>)
    requires s.Valid() && Initial(s, x) && Possible(s, x, run)
    ensures var y := After(s, x, run);
            Mapped(s, y.mem) &&
            (y.mem[s.at + LOCK] == 0 <==> forall i | 0 <= i < |y.threads| :: !Holds(s, y.threads[i]))
  {
    hide Initial, Holds, Local, Possible, After;
    InitialInvariant(s, x);
    Always(s, x, run);
  }

  /** The counter is the number of acquisitions that have reached it, modulo 2^32: all, but for one that may be under
      way. */
  lemma CounterCounts(s: Setup, x: State, run: seq<Event>)
    requires s.Valid() && Initial(s, x) && Possible(s, x, run)
    ensures var y := After(s, x, run);
            Mapped(s, y.mem) && CounterOf(s, y.mem) == y.calls % 0x1_0000_0000 && y.calls <= y.wins <= y.calls + 1 &&
            (y.wins == y.calls + 1 <==> exists i | 0 <= i < |y.threads| :: Uncounted(s, y.threads[i]))
  {
    hide Initial, Uncounted, Local, Possible, After;
    InitialInvariant(s, x);
    Always(s, x, run);
  }

  /** The called function finds every register but r11 and rsp as it was at entry, the return address on the stack, and
      no thread ever faults in the trampoline. */
  lemma TargetFindsArguments(s: Setup, x: State, run: seq<Event>, i: nat)
    requires s.Valid() && Initial(s, x) && Possible(s, x, run) && i < |After(s, x, run).threads|
    ensures var w := After(s, x, run).threads[i];
            !w.Crashed? &&
            (w.InTarget? ==>
               w.t.rip == s.target && SameRegs(w.t, w.entry, R11, RSP) && w.t.stack == w.entry.stack + [s.at + 34])
  {
    hide Initial, SameRegs, LocalInside, Possible, After;
    InitialInvariant(s, x);
    Always(s, x, run);
    InvariantAt(s, After(s, x, run), i);
  }

  /** The last instruction goes back to the caller with its stack and stack pointer as before the call. */
  lemma ReturnsToCaller(s: Setup, t: Thread, e: Thread, m: Memory)
    requires s.Valid() && LocalInside(s, t, e) && t.rip == s.at + 41
    ensures var c := Step(s.Code(), s.at, Running(t, m));
            c.Running? && c.mem == m && c.t.rip == e.Top() && c.t.stack == e.stack[..|e.stack| - 1] &&
            c.t.reg[RSP] == More8(e.reg[RSP])
  {
    hide Offset, Assemble, Step;
    SpinOffsets(s.target);
    StepAt(s, 10, t, m);
  }
}
