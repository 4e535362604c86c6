/** Running assembled code instruction by instruction, and code that restores registers and returns. */
module X86Runs {

  import opened ByteImage
  import opened X86Code
  import opened X86Machine

  /** For n steps the thread stays in the code. */
  predicate Steady(code: seq<Byte>, at: Word64, c: Config, n: nat)
    decreases n
  {
    n == 0 || (c.Running? && at <= c.t.rip < at + |code| && Steady(code, at, Step(code, at, c), n - 1))
  }

  /** Running the program's bytes, without leaving them before the last step, leads from c to d. */
  ghost predicate Leads(p: seq<Instr>, at: Word64, c: Config, d: Config) {
    exists n: nat :: Steady(Assemble(p), at, c, n) && Run(Assemble(p), at, c, n) == d
  }

  lemma Stay(p: seq<Instr>, at: Word64, c: Config)
    ensures Leads(p, at, c, c)
  {
    assert Steady(Assemble(p), at, c, 0) && Run(Assemble(p), at, c, 0) == c;
  }

  lemma {:induction false} SteadyAdd(code: seq<Byte>, at: Word64, c: Config, n: nat, k: nat)
    requires Steady(code, at, c, n) && Steady(code, at, Run(code, at, c, n), k)
    ensures Steady(code, at, c, n + k)
    decreases n
  {
    hide Step;
    if n > 0 {
      SteadyAdd(code, at, Step(code, at, c), n - 1, k);
    }
  }

  lemma Onward(p: seq<Instr>, at: Word64, c: Config, d: Config, e: Config)
    requires Leads(p, at, c, d) && Leads(p, at, d, e)
    ensures Leads(p, at, c, e)
  {
    hide Run, Assemble, Steady;
    var n: nat :| Steady(Assemble(p), at, c, n) && Run(Assemble(p), at, c, n) == d;
    var k: nat :| Steady(Assemble(p), at, d, k) && Run(Assemble(p), at, d, k) == e;
    RunAdd(Assemble(p), at, c, n, k);
    SteadyAdd(Assemble(p), at, c, n, k);
  }

  /** What instruction i, which ends at `next`, makes of the thread. */
  function Result(i: Instr, t: Thread, m: Memory, next: Word64): Config {
    Exec(i, t.(rip := next), m)
  }

  /** Standing before instruction k, the code executes it. */
  lemma Instruction(p: seq<Instr>, at: Word64, k: nat, t: Thread, m: Memory, next: Word64)
    requires k < |p| && Encodable(p[k]) && at + |Assemble(p)| < TWO64
    requires t.rip == at + Offset(p, k) && next == at + Offset(p, k + 1)
    ensures Leads(p, at, Running(t, m), Result(p[k], t, m, next))
  {
    hide Exec, Encode, Decode, Offset, Assemble;
    StepExecutes(p, at, k, Running(t, m));
    FetchSize(p, k);
    assert Steady(Assemble(p), at, Result(p[k], t, m, next), 0);
    assert Steady(Assemble(p), at, Running(t, m), 1);
    assert Run(Assemble(p), at, Running(t, m), 1) == Run(Assemble(p), at, Result(p[k], t, m, next), 0);
  }

  /** Where the code ends. */
  lemma Offsets(p: seq<Instr>)
    ensures Offset(p, 0) == 0 && Offset(p, |p|) == |Assemble(p)|
  {
    PrefixSize(p, |p|);
    assert p[..|p|] == p;
  }

  // ---- Instructions by what they do, not where they stand ----

  function Then(c: Config, i: Instr): Config {
    if c.Fault? then Fault else Exec(i, c.t, c.mem)
  }

  /** Going on at the given address. */
  function At(c: Config, rip: Word64): Config {
    if c.Fault? then Fault else Running(c.t.(rip := rip), c.mem)
  }

  /** The same registers but for r11, the same stack, memory and place; the flags may differ. */
  predicate Alike(c: Config, d: Config) {
    match (c, d)
    case (Running(t, m), Running(u, n)) => m == n && t.rip == u.rip && AlikeThreads(t, u)
    case (Fault, Fault) => true
    case _ => false
  }

  predicate AlikeThreads(t: Thread, u: Thread) {
    t.stack == u.stack && forall r | 0 <= r < 16 && r != R11 :: t.reg[r] == u.reg[r]
  }

  /** Alike but for the place. */
  predicate AlikeConfigs(c: Config, d: Config) {
    (c.Fault? && d.Fault?) || (c.Running? && d.Running? && c.mem == d.mem && AlikeThreads(c.t, d.t))
  }

  /** Restoring the caller's registers and returning. */
  function Leave(c: Config): Config {
    Then(Then(Then(Then(c, Pop(RBX)), Pop(R14)), Pop(RBP)), Ret)
  }

  /** A pop, wherever it stands. */
  lemma PopLeads(p: seq<Instr>, at: Word64, k: nat, c: Config, r: Reg)
    requires k < |p| && p[k] == Pop(r) && at + |Assemble(p)| < TWO64
    ensures at + Offset(p, k) <= at + Offset(p, k + 1) < TWO64
    ensures Leads(p, at, At(c, at + Offset(p, k)), At(Then(c, Pop(r)), at + Offset(p, k + 1)))
  {
    hide Leads, Assemble, Offset;
    FetchSize(p, k);
    if c.Running? {
      Instruction(p, at, k, c.t.(rip := at + Offset(p, k)), c.mem, at + Offset(p, k + 1));
    } else {
      Stay(p, at, Fault);
    }
  }

  lemma RetLeads(p: seq<Instr>, at: Word64, k: nat, c: Config)
    requires k < |p| && p[k] == Ret && at + |Assemble(p)| < TWO64
    ensures at + Offset(p, k) < TWO64
    ensures Leads(p, at, At(c, at + Offset(p, k)), Then(c, Ret))
  {
    hide Leads, Assemble, Offset;
    FetchSize(p, k);
    if c.Running? {
      Instruction(p, at, k, c.t.(rip := at + Offset(p, k)), c.mem, at + Offset(p, k + 1));
    } else {
      Stay(p, at, Fault);
    }
  }

  /** Three pops and a return, wherever they stand. */
  lemma LeaveLeads(p: seq<Instr>, at: Word64, k: nat, c: Config)
    requires k + 4 <= |p| && p[k] == Pop(RBX) && p[k + 1] == Pop(R14) && p[k + 2] == Pop(RBP) && p[k + 3] == Ret
    requires at + |Assemble(p)| < TWO64 && c.Running? && c.t.rip == at + Offset(p, k)
    ensures Leads(p, at, c, Leave(c))
  {
    hide Leads, Assemble, Offset, Exec;
    var c1 := Then(c, Pop(RBX));
    var c2 := Then(c1, Pop(R14));
    var c3 := Then(c2, Pop(RBP));
    PopLeads(p, at, k, c, RBX);
    PopLeads(p, at, k + 1, c1, R14);
    PopLeads(p, at, k + 2, c2, RBP);
    RetLeads(p, at, k + 3, c3);
    Onward(p, at, c, At(c1, at + Offset(p, k + 1)), At(c2, at + Offset(p, k + 2)));
    Onward(p, at, c, At(c2, at + Offset(p, k + 2)), At(c3, at + Offset(p, k + 3)));
    Onward(p, at, c, At(c3, at + Offset(p, k + 3)), Leave(c));
  }

  lemma PopAlike(c: Config, d: Config, r: Reg)
    requires AlikeConfigs(c, d)
    ensures var e, f := Then(c, Pop(r)), Then(d, Pop(r));
            AlikeConfigs(e, f)
  {
  }

  /** Returning does not depend on r11, the flags or the place. */
  lemma LeaveAlike(c: Config, d: Config)
    requires c.Running? && d.Running? && c.mem == d.mem && AlikeThreads(c.t, d.t)
    ensures Alike(Leave(c), Leave(d))
  {
    hide AlikeThreads;
    PopAlike(c, d, RBX);
    PopAlike(Then(c, Pop(RBX)), Then(d, Pop(RBX)), R14);
    PopAlike(Then(Then(c, Pop(RBX)), Pop(R14)), Then(Then(d, Pop(RBX)), Pop(R14)), RBP);
    RetAlike(Then(Then(Then(c, Pop(RBX)), Pop(R14)), Pop(RBP)), Then(Then(Then(d, Pop(RBX)), Pop(R14)), Pop(RBP)));
  }

  lemma RetAlike(c: Config, d: Config)
    requires AlikeConfigs(c, d)
    ensures Alike(Then(c, Ret), Then(d, Ret))
  {
  }

  // ---- Sequences that the trampolines share ----

  /** test r, r; je rel */
  lemma TestLeads(p: seq<Instr>, at: Word64, k: nat, t: Thread, m: Memory, r: Reg, rel: Int8)
    requires k + 2 <= |p| && p[k] == TestSelf(r) && p[k + 1] == JumpIf(Equal, rel) && 0 <= rel
    requires at + |Assemble(p)| + 0x80 < TWO64 && t.rip == at + Offset(p, k)
    ensures at + Offset(p, k + 2) + rel < TWO64
    ensures Leads(p, at, Running(t, m),
                  Running(t.(rip := at + Offset(p, k + 2) + if t.reg[r] == 0 then rel else 0,
                             flags := OfTest(64, t.reg[r])), m))
  {
    hide Leads, Assemble, Offset;
    FetchSize(p, k);
    FetchSize(p, k + 1);
    var u := t.(rip := at + Offset(p, k + 1), flags := OfTest(64, t.reg[r]));
    Instruction(p, at, k, t, m, at + Offset(p, k + 1));
    Instruction(p, at, k + 1, u, m, at + Offset(p, k + 2));
    Onward(p, at, Running(t, m), Running(u, m), Result(p[k + 1], u, m, at + Offset(p, k + 2)));
  }

  /** movabs r11, target; jmp r11 */
  lemma FarJumpLeads(p: seq<Instr>, at: Word64, k: nat, t: Thread, m: Memory, target: Word64)
    requires k + 2 <= |p| && p[k] == MovImm(R11, target) && p[k + 1] == JumpReg(R11)
    requires at + |Assemble(p)| < TWO64 && t.rip == at + Offset(p, k)
    ensures Leads(p, at, Running(t, m), Running(t.With(R11, target).(rip := target), m))
  {
    hide Leads, Assemble, Offset;
    FetchSize(p, k);
    FetchSize(p, k + 1);
    var u := t.With(R11, target).(rip := at + Offset(p, k + 1));
    Instruction(p, at, k, t, m, at + Offset(p, k + 1));
    Instruction(p, at, k + 1, u, m, at + Offset(p, k + 2));
    Onward(p, at, Running(t, m), Running(u, m), Result(p[k + 1], u, m, at + Offset(p, k + 2)));
  }

  function Loaded(c: Config, r: Reg, base: Reg, disp: Int32): Config {
    Then(c, Load(r, base, disp))
  }

  /** mov r, [base + disp] */
  lemma LoadLeads(p: seq<Instr>, at: Word64, k: nat, t: Thread, m: Memory, r: Reg, base: Reg, disp: Int32)
    requires k < |p| && p[k] == Load(r, base, disp) && base % 8 != 4
    requires at + |Assemble(p)| < TWO64 && t.rip == at + Offset(p, k)
    ensures at + Offset(p, k + 1) < TWO64
    ensures Leads(p, at, Running(t, m), At(Loaded(Running(t, m), r, base, disp), at + Offset(p, k + 1)))
  {
    hide Leads, Assemble, Offset, Load64;
    FetchSize(p, k);
    Instruction(p, at, k, t, m, at + Offset(p, k + 1));
  }

  /** A load does not depend on r11, the flags or the place. */
  lemma LoadAlike(c: Config, d: Config, r: Reg, base: Reg, disp: Int32)
    requires AlikeConfigs(c, d) && base != R11
    ensures AlikeConfigs(Loaded(c, r, base, disp), Loaded(d, r, base, disp))
  {
    hide Load64;
    if c.Running? {
      assert c.t.reg[base] == d.t.reg[base];
    }
  }
}
