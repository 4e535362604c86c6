/** The patched game: from the patch site through the trampoline and back. */
module Detours {

  import opened ByteImage
  import opened X86Code
  import opened X86Machine
  import opened X86Runs
  import opened NullSafe
  import opened Emission

  /** A machine with the game's image at base and a trampoline elsewhere. */
  datatype Machine = Machine(image: seq<Byte>, base: Word64, tramp: seq<Byte>, at: Word64)
  {
    predicate Apart() {
      base + |image| < TWO64 && at + |tramp| < TWO64 && (at + |tramp| <= base || base + |image| <= at)
    }

    /** One instruction, wherever it lies. */
    function StepIn(c: Config): Config {
      if c.Running? && at <= c.t.rip < at + |tramp| then Step(tramp, at, c) else Step(image, base, c)
    }

    function RunIn(c: Config, n: nat): Config
      decreases n
    {
      if n == 0 then c else RunIn(StepIn(c), n - 1)
    }

    ghost predicate Reaches(c: Config, d: Config) {
      exists n: nat :: RunIn(c, n) == d
    }
  }

  lemma {:induction false} SteadyRuns(p: Machine, c: Config, n: nat)
    requires Steady(p.tramp, p.at, c, n)
    ensures p.RunIn(c, n) == Run(p.tramp, p.at, c, n)
    decreases n
  {
    hide Step;
    if n > 0 {
      SteadyRuns(p, Step(p.tramp, p.at, c), n - 1);
    }
  }

  /** The image with the jump at the site. */
  function Patched(image: seq<Byte>, base: Word64, site: nat, size: nat, at: Word64): seq<Byte>
    requires 5 <= size && site + size <= |image| && InReach(at - (base + site + 5))
  {
    Splice(image, site, Detour(at - (base + site + 5), size))
  }

  /** From the site on, the machine does what the trampoline does. */
  lemma SiteReaches(image: seq<Byte>, base: Word64, site: nat, size: nat, code: seq<Instr>, at: Word64, t: Thread,
                    m: Memory, end: Config)
    requires 5 <= size && site + size <= |image| && InReach(at - (base + site + 5)) && t.rip == base + site
    requires Machine(image, base, Assemble(code), at).Apart()
    requires Leads(code, at, Running(t.(rip := at), m), end)
    ensures Machine(Patched(image, base, site, size, at), base, Assemble(code), at).Reaches(Running(t, m), end)
  {
    hide Assemble, Run, Steady, Step, Detour;
    var p := Machine(Patched(image, base, site, size, at), base, Assemble(code), at);
    DetourEnters(image, base, site, size, at, t, m);
    var n: nat :| Steady(p.tramp, at, Running(t.(rip := at), m), n) &&
        Run(p.tramp, at, Running(t.(rip := at), m), n) == end;
    SteadyRuns(p, Running(t.(rip := at), m), n);
    assert p.StepIn(Running(t, m)) == Running(t.(rip := at), m);
    assert p.RunIn(Running(t, m), n + 1) == end;
  }

  // ---- The three sites ----

  /** Where a load, a pop or a return stands does not matter. */
  lemma LoadAnywhere(c: Config, r: Reg, base: Reg, disp: Int32, rip: Word64)
    ensures Loaded(At(c, rip), r, base, disp) == At(Loaded(c, r, base, disp), rip)
  {
    hide Load64;
  }

  lemma PopAnywhere(c: Config, r: Reg, rip: Word64)
    ensures Then(At(c, rip), Pop(r)) == At(Then(c, Pop(r)), rip)
    ensures Then(At(c, rip), Ret) == Then(c, Ret)
  {
  }

  lemma LeaveAnywhere(c: Config, rip: Word64)
    ensures Leave(At(c, rip)) == Leave(c)
  {
    hide Then, At;
    PopAnywhere(c, RBX, rip);
    PopAnywhere(Then(c, Pop(RBX)), R14, rip);
    PopAnywhere(Then(Then(c, Pop(RBX)), Pop(R14)), RBP, rip);
    PopAnywhere(Then(Then(Then(c, Pop(RBX)), Pop(R14)), Pop(RBP)), RBP, rip);
  }

  lemma ResourceAnywhere(base: Word64, t: Thread, m: Memory, rip: Word64)
    ensures GuardedResource(base, t.(rip := rip), m) == GuardedResource(base, t, m)
  {
    hide Leave, Load64;
    LeaveAnywhere(Running(t, m), rip);
    LoadAnywhere(Running(t, m), RAX, RAX, 0x90, rip);
    LeaveAnywhere(Loaded(Running(t, m), RAX, RAX, 0x90), rip);
  }

  /** The displaced load at 0x37f34c is made and the game goes on after it, or the function returns. */
  lemma ResourceFromSite(image: seq<Byte>, base: Word64, at: Word64, t: Thread, m: Memory) returns (end: Config)
    requires 0x37f34c + 7 <= |image| && at + 0x1000 < TWO64 &&
             Machine(image, base, Assemble(ResourceCode(base)), at).Apart()
    requires InReach(at - (base + 0x37f34c + 5)) && t.rip == base + 0x37f34c
    ensures var p := Machine(Patched(image, base, 0x37f34c, 7, at), base, Assemble(ResourceCode(base)), at);
            p.Reaches(Running(t, m), end) && Alike(end, GuardedResource(base, t, m))
    ensures Wrap(base + 0x37f353) == t.rip + 7
  {
    hide Assemble, Leads, GuardedResource, Alike;
    end := ResourceGuarded(base, at, t.(rip := at), m);
    ResourceAnywhere(base, t, m, at);
    SiteReaches(image, base, 0x37f34c, 7, ResourceCode(base), at, t, m, end);
  }

  lemma TriggerAnywhere(base: Word64, t: Thread, m: Memory, rip: Word64)
    ensures GuardedTrigger(base, t.(rip := rip), m) == GuardedTrigger(base, t, m)
  {
  }

  /** The displaced comparison at 0x349c26 is made and the game goes on after it, or 0x349c86 is next. */
  lemma TriggerFromSite(image: seq<Byte>, base: Word64, at: Word64, t: Thread, m: Memory) returns (end: Config)
    requires 0x349c26 + 8 <= |image| && at + 0x1000 < TWO64 &&
             Machine(image, base, Assemble(TriggerCode(base)), at).Apart()
    requires InReach(at - (base + 0x349c26 + 5)) && t.rip == base + 0x349c26
    ensures var p := Machine(Patched(image, base, 0x349c26, 8, at), base, Assemble(TriggerCode(base)), at);
            p.Reaches(Running(t, m), end) && Alike(end, GuardedTrigger(base, t, m))
    ensures t.reg[R13] != 0 && end.Running? ==> end.t.flags == GuardedTrigger(base, t, m).t.flags
    ensures Wrap(base + 0x349c2e) == t.rip + 8
  {
    hide Assemble, Leads, GuardedTrigger, Alike;
    end := TriggerGuarded(base, at, t.(rip := at), m);
    TriggerAnywhere(base, t, m, at);
    SiteReaches(image, base, 0x349c26, 8, TriggerCode(base), at, t, m, end);
  }

  lemma NotifyAnywhere(base: Word64, t: Thread, m: Memory, rip: Word64)
    ensures GuardedNotify(base, t.(rip := rip), m) == GuardedNotify(base, t, m)
  {
    hide Loaded;
    var c := Running(t, m);
    var d := Loaded(c, RSI, RAX, 0x98);
    var e := Loaded(d, RAX, RAX, 0xC0);
    LoadAnywhere(c, RSI, RAX, 0x98, rip);
    LoadAnywhere(d, RAX, RAX, 0xC0, rip);
    LoadAnywhere(e, RCX, RAX, 0x90, rip);
  }

  /** The displaced loads at 0x4e6c31 are made and the game goes on after them, or 0x4e6c53 is next. */
  lemma NotifyFromSite(image: seq<Byte>, base: Word64, at: Word64, t: Thread, m: Memory) returns (end: Config)
    requires 0x4e6c31 + 21 <= |image| && at + 0x1000 < TWO64 &&
             Machine(image, base, Assemble(NotifyCode(base)), at).Apart()
    requires InReach(at - (base + 0x4e6c31 + 5)) && t.rip == base + 0x4e6c31
    ensures var p := Machine(Patched(image, base, 0x4e6c31, 21, at), base, Assemble(NotifyCode(base)), at);
            p.Reaches(Running(t, m), end) && Alike(end, GuardedNotify(base, t, m))
    ensures Wrap(base + 0x4e6c46) == t.rip + 21
  {
    hide Assemble, Leads, GuardedNotify, Alike;
    end := NotifyGuarded(base, at, t.(rip := at), m);
    NotifyAnywhere(base, t, m, at);
    SiteReaches(image, base, 0x4e6c31, 21, NotifyCode(base), at, t, m, end);
  }
}
