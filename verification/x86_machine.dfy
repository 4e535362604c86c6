/** A processor that runs the emitted bytes: one thread's registers and stack, and the memory that threads share.
    An address that memory does not map faults. */
module X86Machine {

  import opened Options
  import opened ByteImage
  import opened X86Code

  /** The arithmetic flags, as the last instruction that set them left them. */
  datatype Flags =
    | Given(zero: bool, carry: bool)
    | OfTest(bits: nat, value: nat)
    | OfCompare(bits: nat, left: nat, right: nat)
    | OfIncrement(bits: nat, result: nat, before: bool)
  {
    predicate Zero() {
      match this
      case Given(z, _) => z
      case OfTest(_, v) => v == 0
      case OfCompare(_, l, r) => l == r
      case OfIncrement(_, v, _) => v == 0
    }

    predicate Carry() {
      match this
      case Given(_, c) => c
      case OfTest(_, _) => false
      case OfCompare(_, l, r) => l < r
      case OfIncrement(_, _, c) => c
    }
  }

  predicate Met(c: Cond, f: Flags) {
    match c
    case Below => f.Carry()
    case Equal => f.Zero()
    case NotEqual => !f.Zero()
  }

  type Regs = r: seq<Word64> | |r| == 16 witness seq(16, i => 0)

  /** The stack is the part above the thread's stack pointer, its top last. */
  datatype Thread = Thread(reg: Regs, rip: Word64, flags: Flags, stack: seq<Word64>)
  {
    function With(r: Reg, v: Word64): Thread { this.(reg := reg[r := v]) }

    function Low(r: Reg): Byte { reg[r] % 0x100 }

    function WithLow(r: Reg, b: Byte): Thread { With(r, reg[r] - reg[r] % 0x100 + b) }

    function Pushed(v: Word64): Thread {
      var sp: int := reg[RSP];
      With(RSP, Wrap(sp - 8)).(stack := stack + [v])
    }

    function Popped(): Thread
      requires |stack| > 0
    {
      var sp: int := reg[RSP];
      With(RSP, Wrap(sp + 8)).(stack := stack[..|stack| - 1])
    }

    function Address(base: Reg, disp: Int32): Word64 { Wrap(reg[base] + disp) }

    function Top(): Word64
      requires |stack| > 0
    {
      stack[|stack| - 1]
    }
  }

  type Memory = map<Word64, Byte>

  function LoadBytes(m: Memory, a: Word64, n: nat): (r: Option<seq<Byte>>)
    ensures r.Some? ==> |r.value| == n
    decreases n
  {
    if n == 0 then Some([])
    else if a !in m then None
    else
      match LoadBytes(m, Wrap(a + 1), n - 1)
      case Some(rest) => Some([m[a]] + rest)
      case None => None
  }

  function StoreBytes(m: Memory, a: Word64, s: seq<Byte>): Memory
    decreases |s|
  {
    if |s| == 0 then m else StoreBytes(m[a := s[0]], Wrap(a + 1), s[1..])
  }

  function Load64(m: Memory, a: Word64): Option<Word64> {
    match LoadBytes(m, a, 8)
    case Some(s) =>
      EightBytes();
      BytesBound(s);
      Some(FromBytes(s))
    case None => None
  }

  datatype Config = Running(t: Thread, mem: Memory) | Fault

  /** One instruction; the thread's rip is already past it. */
  function Exec(i: Instr, t: Thread, m: Memory): Config {
    match i
    case Push(r) => Running(t.Pushed(t.reg[r]), m)
    case Pop(r) => if |t.stack| == 0 then Fault else Running(t.Popped().With(r, t.Top()), m)
    case MovAl(imm) => Running(t.WithLow(RAX, imm), m)
    case XchgAl(disp) =>
      var a := Wrap(t.rip + disp);
      if a in m then Running(t.WithLow(RAX, m[a]), m[a := t.Low(RAX)]) else Fault
    case TestAl => Running(t.(flags := OfTest(8, t.Low(RAX))), m)
    case TestSelf(r) => Running(t.(flags := OfTest(64, t.reg[r])), m)
    case Cmp(a, b) => Running(t.(flags := OfCompare(64, t.reg[a], t.reg[b])), m)
    case Load(r, base, disp) =>
      (match Load64(m, t.Address(base, disp))
       case Some(v) => Running(t.With(r, v), m)
       case None => Fault)
    case CmpByte(base, disp, imm) =>
      var a := t.Address(base, disp);
      if a in m then Running(t.(flags := OfCompare(8, m[a], imm)), m) else Fault
    case JumpIf(cond, rel) => Running(if Met(cond, t.flags) then t.(rip := Wrap(t.rip + rel)) else t, m)
    case LockInc(disp) =>
      var a := Wrap(t.rip + disp);
      (match LoadBytes(m, a, 4)
       case Some(s) =>
         var v := (FromBytes(s) + 1) % 0x1_0000_0000;
         Running(t.(flags := OfIncrement(32, v, t.flags.Carry())), StoreBytes(m, a, ToBytes(v, 4)))
       case None => Fault)
    case MovImm(r, v) => Running(t.With(r, v), m)
    case CallReg(r) => Running(t.Pushed(t.rip).(rip := t.reg[r]), m)
    case JumpReg(r) => Running(t.(rip := t.reg[r]), m)
    case StoreByte(disp, imm) =>
      var a := Wrap(t.rip + disp);
      if a in m then Running(t, m[a := imm]) else Fault
    case Ret => if |t.stack| == 0 then Fault else Running(t.Popped().(rip := t.Top()), m)
    case JumpNear(rel) => Running(t.(rip := Wrap(t.rip + rel)), m)
    case Nop => Running(t, m)
  }

  /** Fetch, decode and execute from the code that lies at address `at`. */
  function Step(code: seq<Byte>, at: Word64, c: Config): Config {
    if c.Fault? then Fault
    else if !(at <= c.t.rip < at + |code|) then Fault
    else
      match Decode(code[c.t.rip - at..])
      case Some(d) => Exec(d.instr, c.t.(rip := Wrap(c.t.rip + d.size)), c.mem)
      case None => Fault
  }

  function Run(code: seq<Byte>, at: Word64, c: Config, n: nat): Config
    decreases n
  {
    if n == 0 then c else Run(code, at, Step(code, at, c), n - 1)
  }

  /** The thread stands before instruction k of the program. */
  predicate Before(p: seq<Instr>, at: Word64, k: nat, c: Config)
    requires k <= |p|
  {
    c.Running? && c.t.rip == at + Offset(p, k)
  }

  /** Stepping over the bytes of an assembled program executes its next instruction. */
  lemma StepExecutes(p: seq<Instr>, at: Word64, k: nat, c: Config)
    requires k < |p| && Encodable(p[k]) && at + |Assemble(p)| < TWO64 && Before(p, at, k, c)
    ensures at + Offset(p, k + 1) < TWO64
    ensures Step(Assemble(p), at, c) == Exec(p[k], c.t.(rip := at + Offset(p, k + 1)), c.mem)
  {
    hide Encode, Decode, Assemble, Exec, Offset, Size;
    FetchAt(p, k);
    FetchSize(p, k);
  }

  lemma FetchSize(p: seq<Instr>, k: nat)
    requires k < |p|
    ensures Offset(p, k) < Offset(p, k + 1) <= |Assemble(p)|
    ensures Offset(p, k + 1) == Offset(p, k) + Size(p[k])
  {
    hide Encode, Assemble, Size;
    EncodeSize(p[k]);
    PrefixSize(p, k + 1);
    var rest := PrefixOf(p, k + 1);
  }

  lemma {:induction false} RunAdd(code: seq<Byte>, at: Word64, c: Config, n: nat, k: nat)
    ensures Run(code, at, c, n + k) == Run(code, at, Run(code, at, c, n), k)
    decreases n
  {
    hide Step;
    if n > 0 {
      RunAdd(code, at, Step(code, at, c), n - 1, k);
    }
  }
}
