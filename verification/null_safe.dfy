/** The trampolines that keep three places of a game from following a null pointer. */
module NullSafe {

  import opened ByteImage
  import opened X86Code
  import opened X86Machine
  import opened X86Runs

  // ---- The animation resource (0x37f34c): mov rax, [rax + 0x90] ----

  /** What the detour is for: the load is made and the function goes on, unless the pointer is null or the loaded
      one is below 2^32; then the function returns. */
  function GuardedResource(base: Word64, t: Thread, m: Memory): Config {
    if t.reg[RAX] == 0 then Leave(Running(t, m))
    else
      var c := Exec(Load(RAX, RAX, 0x90), t, m);
      if c.Running? && c.t.reg[RAX] < 0x1_0000_0000 then Leave(c) else At(c, Wrap(base + 0x37f353))
  }

  function ResourceCode(base: Word64): seq<Instr> {
    [TestSelf(RAX), JumpIf(Equal, 35), Load(RAX, RAX, 0x90), MovImm(R11, 0x1_0000_0000), Cmp(RAX, R11),
     JumpIf(Below, 13), MovImm(R11, Wrap(base + 0x37f353)), JumpReg(R11), Pop(RBX), Pop(R14), Pop(RBP), Ret]
  }

  lemma ResourceOffsets(base: Word64)
    ensures var p := ResourceCode(base);
            Offset(p, 0) == 0 && Offset(p, 1) == 3 && Offset(p, 2) == 5 && Offset(p, 3) == 12 && Offset(p, 4) == 22 &&
            Offset(p, 5) == 25 && Offset(p, 6) == 27 && Offset(p, 7) == 37 && Offset(p, 8) == 40 && |Assemble(p)| == 45
  {
    hide Offset, Assemble;
    var p := ResourceCode(base);
    Offsets(p);
    OffsetNext(p, 0);
    OffsetNext(p, 1);
    OffsetNext(p, 2);
    OffsetNext(p, 3);
    OffsetNext(p, 4);
    OffsetNext(p, 5);
    OffsetNext(p, 6);
    OffsetNext(p, 7);
    OffsetNext(p, 8);
    OffsetNext(p, 9);
    OffsetNext(p, 10);
    OffsetNext(p, 11);
  }

  /** The comparison with 2^32 of what was loaded. */
  lemma ResourceCompare(base: Word64, at: Word64, t: Thread, m: Memory)
    requires at + 0x1000 < TWO64 && t.rip == at + 12
    ensures var low := t.reg[RAX] < 0x1_0000_0000;
            Leads(ResourceCode(base), at, Running(t, m),
                  Running(t.(rip := at + if low then 40 else 27, flags := OfCompare(64, t.reg[RAX], 0x1_0000_0000)).
                            With(R11, 0x1_0000_0000), m))
  {
    hide Leads, Assemble, Offset;
    var p := ResourceCode(base);
    ResourceOffsets(base);
    var u := t.(rip := at + 22).With(R11, 0x1_0000_0000);
    var v := u.(rip := at + 25, flags := OfCompare(64, t.reg[RAX], 0x1_0000_0000));
    Instruction(p, at, 3, t, m, at + 22);
    Instruction(p, at, 4, u, m, at + 25);
    Instruction(p, at, 5, v, m, at + 27);
    Onward(p, at, Running(t, m), Running(u, m), Running(v, m));
    Onward(p, at, Running(t, m), Running(v, m), Result(p[5], v, m, at + 27));
  }

  /** From any state, the emitted bytes do what the detour is for, up to r11 and the flags. */
  lemma ResourceGuarded(base: Word64, at: Word64, t: Thread, m: Memory) returns (end: Config)
    requires at + 0x1000 < TWO64 && t.rip == at
    ensures Leads(ResourceCode(base), at, Running(t, m), end) && Alike(end, GuardedResource(base, t, m))
  {
    hide Leads, Leave, Exec, Assemble, Offset;
    var p, c := ResourceCode(base), Running(t, m);
    ResourceOffsets(base);
    TestLeads(p, at, 0, t, m, RAX, 35);
    var u := t.(rip := at + if t.reg[RAX] == 0 then 40 else 5, flags := OfTest(64, t.reg[RAX]));
    if t.reg[RAX] == 0 {
      LeaveLeads(p, at, 8, Running(u, m));
      end := Leave(Running(u, m));
      LeaveAlike(Running(u, m), c);
    } else {
      LoadLeads(p, at, 2, u, m, RAX, RAX, 0x90);
      LoadAlike(Running(u, m), c, RAX, RAX, 0x90);
      var d := At(Loaded(Running(u, m), RAX, RAX, 0x90), at + 12);
      if d.Fault? {
        end := Fault;
      } else {
        end := ResourceChecked(base, at, d, Loaded(c, RAX, RAX, 0x90));
        Onward(p, at, Running(u, m), d, end);
      }
    }
    Onward(p, at, c, Running(u, m), end);
  }

  /** With the load made: on to the rest of the function, or to the return. */
  lemma ResourceChecked(base: Word64, at: Word64, c: Config, d: Config) returns (end: Config)
    requires at + 0x1000 < TWO64 && c.Running? && d.Running? && AlikeConfigs(c, d) && c.t.rip == at + 12
    ensures Leads(ResourceCode(base), at, c, end)
    ensures Alike(end, if d.t.reg[RAX] < 0x1_0000_0000 then Leave(d) else At(d, Wrap(base + 0x37f353)))
  {
    hide Leads, Leave, Assemble, Offset;
    var p, v := ResourceCode(base), c.t.reg[RAX];
    ResourceOffsets(base);
    ResourceCompare(base, at, c.t, c.mem);
    var u := c.t.(rip := at + if v < 0x1_0000_0000 then 40 else 27,
        flags := OfCompare(64, v, 0x1_0000_0000)).With(R11, 0x1_0000_0000);
    if v < 0x1_0000_0000 {
      LeaveLeads(p, at, 8, Running(u, c.mem));
      end := Leave(Running(u, c.mem));
      LeaveAlike(Running(u, c.mem), d);
    } else {
      var next := Wrap(base + 0x37f353);
      FarJumpLeads(p, at, 6, u, c.mem, next);
      end := Running(u.With(R11, next).(rip := next), c.mem);
    }
    Onward(p, at, c, Running(u, c.mem), end);
  }

  // ---- The trigger effect (0x349c26): cmp byte [r13 + 0x201], 0xFF ----

  /** The comparison is made and the function goes on, unless the pointer is null; then the function skips its use. */
  function GuardedTrigger(base: Word64, t: Thread, m: Memory): Config {
    if t.reg[R13] == 0 then At(Running(t, m), Wrap(base + 0x349c86))
    else At(Exec(CmpByte(R13, 0x201, 0xFF), t, m), Wrap(base + 0x349c2e))
  }

  function TriggerCode(base: Word64): seq<Instr> {
    [TestSelf(R13), JumpIf(Equal, 21), CmpByte(R13, 0x201, 0xFF), MovImm(R11, Wrap(base + 0x349c2e)), JumpReg(R11),
     MovImm(R11, Wrap(base + 0x349c86)), JumpReg(R11)]
  }

  lemma TriggerOffsets(base: Word64)
    ensures var p := TriggerCode(base);
            Offset(p, 0) == 0 && Offset(p, 1) == 3 && Offset(p, 2) == 5 && Offset(p, 3) == 13 && Offset(p, 4) == 23 &&
            Offset(p, 5) == 26 && Offset(p, 6) == 36 && |Assemble(p)| == 39
  {
    hide Offset, Assemble;
    var p := TriggerCode(base);
    Offsets(p);
    OffsetNext(p, 0);
    OffsetNext(p, 1);
    OffsetNext(p, 2);
    OffsetNext(p, 3);
    OffsetNext(p, 4);
    OffsetNext(p, 5);
    OffsetNext(p, 6);
  }

  /** From any state, the emitted bytes do what the detour is for, up to r11; a comparison's flags go
      through. */
  lemma TriggerGuarded(base: Word64, at: Word64, t: Thread, m: Memory) returns (end: Config)
    requires at + 0x1000 < TWO64 && t.rip == at
    ensures Leads(TriggerCode(base), at, Running(t, m), end) && Alike(end, GuardedTrigger(base, t, m))
    ensures t.reg[R13] != 0 && end.Running? ==> end.t.flags == GuardedTrigger(base, t, m).t.flags
  {
    hide Leads, Assemble, Offset;
    var p, c := TriggerCode(base), Running(t, m);
    TriggerOffsets(base);
    TestLeads(p, at, 0, t, m, R13, 21);
    var u := t.(rip := at + if t.reg[R13] == 0 then 26 else 5, flags := OfTest(64, t.reg[R13]));
    if t.reg[R13] == 0 {
      var skip := Wrap(base + 0x349c86);
      FarJumpLeads(p, at, 5, u, m, skip);
      end := Running(u.With(R11, skip).(rip := skip), m);
    } else {
      var d := Result(p[2], u, m, at + 13);
      Instruction(p, at, 2, u, m, at + 13);
      if d.Fault? {
        end := Fault;
      } else {
        var next := Wrap(base + 0x349c2e);
        FarJumpLeads(p, at, 3, d.t, m, next);
        end := Running(d.t.With(R11, next).(rip := next), m);
        Onward(p, at, Running(u, m), d, end);
      }
    }
    Onward(p, at, c, Running(u, m), end);
  }

  // ---- The animation notification (0x4e6c31): three loads ----

  /** The loads mov rsi, [rax + 0x98]; mov rax, [rax + 0xc0]; mov rcx, [rax + 0x90] are made one by one and the function
      goes on; as soon as a pointer is null it skips instead. */
  function GuardedNotify(base: Word64, t: Thread, m: Memory): Config {
    if t.reg[RAX] == 0 then At(Running(t, m), Wrap(base + 0x4e6c53))
    else
      var c := Loaded(Loaded(Running(t, m), RSI, RAX, 0x98), RAX, RAX, 0xC0);
      if c.Fault? then Fault else GuardedLast(base, c)
  }

  function GuardedLast(base: Word64, c: Config): Config
    requires c.Running?
  {
    if c.t.reg[RAX] == 0 then At(c, Wrap(base + 0x4e6c53))
    else
      var d := Loaded(c, RCX, RAX, 0x90);
      if d.Running? && d.t.reg[RCX] == 0 then At(d, Wrap(base + 0x4e6c53)) else At(d, Wrap(base + 0x4e6c46))
  }

  function NotifyCode(base: Word64): seq<Instr> {
    [TestSelf(RAX), JumpIf(Equal, 44), Load(RSI, RAX, 0x98), Load(RAX, RAX, 0xC0), TestSelf(RAX), JumpIf(Equal, 25),
     Load(RCX, RAX, 0x90), TestSelf(RCX), JumpIf(Equal, 13), MovImm(R11, Wrap(base + 0x4e6c46)), JumpReg(R11),
     MovImm(R11, Wrap(base + 0x4e6c53)), JumpReg(R11)]
  }

  lemma NotifyOffsets(base: Word64)
    ensures var p := NotifyCode(base);
            Offset(p, 0) == 0 && Offset(p, 1) == 3 && Offset(p, 2) == 5 && Offset(p, 3) == 12 && Offset(p, 4) == 19 &&
            Offset(p, 5) == 22 && Offset(p, 6) == 24 && Offset(p, 7) == 31 && Offset(p, 8) == 34 &&
            Offset(p, 9) == 36 && Offset(p, 10) == 46 && Offset(p, 11) == 49 && Offset(p, 12) == 59 &&
            |Assemble(p)| == 62
  {
    hide Offset, Assemble;
    var p := NotifyCode(base);
    Offsets(p);
    OffsetNext(p, 0);
    OffsetNext(p, 1);
    OffsetNext(p, 2);
    OffsetNext(p, 3);
    OffsetNext(p, 4);
    OffsetNext(p, 5);
    OffsetNext(p, 6);
    OffsetNext(p, 7);
    OffsetNext(p, 8);
    OffsetNext(p, 9);
    OffsetNext(p, 10);
    OffsetNext(p, 11);
    OffsetNext(p, 12);
  }

  /** Both ways out of the notification code. */
  lemma NotifyOut(base: Word64, at: Word64, c: Config, d: Config, skip: bool) returns (end: Config)
    requires at + 0x1000 < TWO64 && c.Running? && d.Running? && AlikeConfigs(c, d)
    requires c.t.rip == at + if skip then 49 else 36
    ensures Leads(NotifyCode(base), at, c, end)
    ensures Alike(end, At(d, Wrap(base + if skip then 0x4e6c53 else 0x4e6c46)))
  {
    hide Leads, Assemble, Offset;
    var p := NotifyCode(base);
    NotifyOffsets(base);
    var target := Wrap(base + if skip then 0x4e6c53 else 0x4e6c46);
    FarJumpLeads(p, at, if skip then 11 else 9, c.t, c.mem, target);
    end := Running(c.t.With(R11, target).(rip := target), c.mem);
  }

  /** The last load, from a state like d but for the flags and the place. */
  lemma NotifyLast(base: Word64, at: Word64, c: Config, d: Config) returns (end: Config)
    requires at + 0x1000 < TWO64 && c.Running? && d.Running? && AlikeConfigs(c, d) && c.t.rip == at + 19
    ensures Leads(NotifyCode(base), at, c, end) && Alike(end, GuardedLast(base, d))
  {
    hide Leads, Assemble, Offset, Exec;
    var p := NotifyCode(base);
    NotifyOffsets(base);
    TestLeads(p, at, 4, c.t, c.mem, RAX, 25);
    var u := c.t.(rip := at + if c.t.reg[RAX] == 0 then 49 else 24, flags := OfTest(64, c.t.reg[RAX]));
    var cu := Running(u, c.mem);
    assert c.t.reg[RAX] == d.t.reg[RAX];
    if c.t.reg[RAX] == 0 {
      end := NotifyOut(base, at, cu, d, true);
    } else {
      LoadLeads(p, at, 6, u, c.mem, RCX, RAX, 0x90);
      LoadAlike(cu, d, RCX, RAX, 0x90);
      var e, f := At(Loaded(cu, RCX, RAX, 0x90), at + 31), Loaded(d, RCX, RAX, 0x90);
      if e.Fault? {
        end := Fault;
      } else {
        end := NotifyEnd(base, at, e, f);
        Onward(p, at, cu, e, end);
      }
    }
    Onward(p, at, c, cu, end);
  }

  lemma NotifyEnd(base: Word64, at: Word64, c: Config, d: Config) returns (end: Config)
    requires at + 0x1000 < TWO64 && c.Running? && d.Running? && AlikeConfigs(c, d) && c.t.rip == at + 31
    ensures Leads(NotifyCode(base), at, c, end)
    ensures Alike(end, At(d, Wrap(base + if d.t.reg[RCX] == 0 then 0x4e6c53 else 0x4e6c46)))
  {
    hide Leads, Assemble, Offset, Exec;
    var p := NotifyCode(base);
    NotifyOffsets(base);
    TestLeads(p, at, 7, c.t, c.mem, RCX, 13);
    assert c.t.reg[RCX] == d.t.reg[RCX];
    var u := c.t.(rip := at + if c.t.reg[RCX] == 0 then 49 else 36, flags := OfTest(64, c.t.reg[RCX]));
    end := NotifyOut(base, at, Running(u, c.mem), d, c.t.reg[RCX] == 0);
    Onward(p, at, c, Running(u, c.mem), end);
  }

  /** From any state, the emitted bytes do what the detour is for, up to r11 and the flags. */
  lemma NotifyGuarded(base: Word64, at: Word64, t: Thread, m: Memory) returns (end: Config)
    requires at + 0x1000 < TWO64 && t.rip == at
    ensures Leads(NotifyCode(base), at, Running(t, m), end) && Alike(end, GuardedNotify(base, t, m))
  {
    hide Leads, Assemble, Offset, Exec, GuardedLast;
    var p, c := NotifyCode(base), Running(t, m);
    NotifyOffsets(base);
    TestLeads(p, at, 0, t, m, RAX, 44);
    var u := t.(rip := at + if t.reg[RAX] == 0 then 49 else 5, flags := OfTest(64, t.reg[RAX]));
    var cu := Running(u, m);
    if t.reg[RAX] == 0 {
      end := NotifyOut(base, at, cu, c, true);
    } else {
      end := NotifyLoads(base, at, cu, c);
    }
    Onward(p, at, c, cu, end);
  }

  /** The first two loads and what follows. */
  lemma NotifyLoads(base: Word64, at: Word64, c: Config, d: Config) returns (end: Config)
    requires at + 0x1000 < TWO64 && c.Running? && d.Running? && AlikeConfigs(c, d) && c.t.rip == at + 5
    ensures Leads(NotifyCode(base), at, c, end)
    ensures var e := Loaded(Loaded(d, RSI, RAX, 0x98), RAX, RAX, 0xC0);
            Alike(end, if e.Fault? then Fault else GuardedLast(base, e))
  {
    hide Leads, Assemble, Offset, Loaded, GuardedLast;
    var p := NotifyCode(base);
    NotifyOffsets(base);
    var d1 := Loaded(d, RSI, RAX, 0x98);
    LoadLeads(p, at, 2, c.t, c.mem, RSI, RAX, 0x98);
    LoadAlike(c, d, RSI, RAX, 0x98);
    var c1 := At(Loaded(c, RSI, RAX, 0x98), at + 12);
    FaultLoads(RAX, RAX, 0xC0);
    if c1.Fault? {
      end := Fault;
    } else {
      LoadLeads(p, at, 3, c1.t, c1.mem, RAX, RAX, 0xC0);
      LoadAlike(c1, d1, RAX, RAX, 0xC0);
      var c2 := At(Loaded(c1, RAX, RAX, 0xC0), at + 19);
      if c2.Fault? {
        end := Fault;
      } else {
        end := NotifyLast(base, at, c2, Loaded(d1, RAX, RAX, 0xC0));
        Onward(p, at, c1, c2, end);
      }
      Onward(p, at, c, c1, end);
    }
  }

  lemma FaultLoads(r: Reg, base: Reg, disp: Int32)
    ensures Loaded(Fault, r, base, disp) == Fault
  {
  }
}
