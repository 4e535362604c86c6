/** Writing the trampolines into their page, and the jumps to them into the game's code. */
module Emission {

  import opened Options
  import opened ByteImage
  import opened X86Code
  import opened X86Machine
  import opened NullSafe
  import Spinlock

  /** Instruction k's bytes written at the moving index. */
  method Put(tr: array<Byte>, p: nat, bytes: seq<Byte>, ghost code: seq<Instr>, ghost k: nat) returns (q: nat)
    requires k < |code| && p + |bytes| <= tr.Length && tr[..p] == Assemble(code[..k]) && bytes == Encode(code[k])
    modifies tr
    ensures q == p + |bytes| && tr[..q] == Assemble(code[..k + 1])
  {
    hide Encode, Assemble;
    forall j | 0 <= j < |bytes| {
      tr[p + j] := bytes[j];
    }
    q := p + |bytes|;
    AssembleAppend(code[..k], code[k]);
    assert code[..k + 1] == code[..k] + [code[k]];
    assert tr[..q] == old(tr[..p]) + bytes;
  }

  lemma DispBytes(x: Int32)
    requires 0 <= x < 0x1_0000
    ensures Disp32(x) == [x % 0x100, x / 0x100, 0x00, 0x00]
  {
    hide ToBytes;
    ByteByByte(x);
  }

  lemma TestBytes()
    ensures Encode(TestSelf(RAX)) == [0x48, 0x85, 0xC0]
    ensures Encode(TestSelf(RCX)) == [0x48, 0x85, 0xC9]
    ensures Encode(TestSelf(R13)) == [0x4D, 0x85, 0xED]
    ensures Encode(Cmp(RAX, R11)) == [0x4C, 0x39, 0xD8]
  {
  }

  lemma MovBytes(r: Reg, disp: Int32)
    requires r < 8 && 0 <= disp < 0x100
    ensures Encode(Load(r, RAX, disp)) == [0x48, 0x8B, 0x80 + 8 * r, disp, 0x00, 0x00, 0x00]
  {
    hide Disp32;
    DispBytes(disp);
  }

  lemma CmpByteBytes()
    ensures Encode(CmpByte(R13, 0x201, 0xFF)) == [0x41, 0x80, 0xBD, 0x01, 0x02, 0x00, 0x00, 0xFF]
  {
    hide Disp32;
    DispBytes(0x201);
  }

  lemma FarJumpBytes(v: Word64)
    ensures Encode(MovImm(R11, v)) == [0x49, 0xBB] + ToBytes(v, 8)
    ensures Encode(JumpReg(R11)) == [0x41, 0xFF, 0xE3]
  {
    hide ToBytes;
  }

  lemma JumpPopBytes()
    ensures Encode(JumpIf(Equal, 35)) == [0x74, 0x23] && Encode(JumpIf(Below, 13)) == [0x72, 0x0D]
    ensures Encode(JumpIf(Equal, 21)) == [0x74, 0x15] && Encode(JumpIf(Equal, 44)) == [0x74, 0x2C]
    ensures Encode(JumpIf(Equal, 25)) == [0x74, 0x19] && Encode(JumpIf(Equal, 13)) == [0x74, 0x0D]
    ensures Encode(Pop(RBX)) == [0x5B] && Encode(Pop(R14)) == [0x41, 0x5E] && Encode(Pop(RBP)) == [0x5D] &&
            Encode(Ret) == [0xC3]
  {
  }

  lemma Empty(s: seq<Byte>, code: seq<Instr>)
    requires |s| == 0
    ensures s == Assemble(code[..0])
  {
  }

  lemma ResourceBytes(base: Word64)
    ensures var c := ResourceCode(base);
            |c| == 12 && Encode(c[0]) == [0x48, 0x85, 0xC0] &&
            Encode(c[1]) == [0x74, 0x23] &&
            Encode(c[2]) == [0x48, 0x8B, 0x80, 0x90, 0x00, 0x00, 0x00] &&
            Encode(c[3]) == [0x49, 0xBB] + ToBytes(0x1_0000_0000, 8) &&
            Encode(c[4]) == [0x4C, 0x39, 0xD8] &&
            Encode(c[5]) == [0x72, 0x0D] &&
            Encode(c[6]) == [0x49, 0xBB] + ToBytes(Wrap(base + 0x37f353), 8) &&
            Encode(c[7]) == [0x41, 0xFF, 0xE3] &&
            Encode(c[8]) == [0x5B] &&
            Encode(c[9]) == [0x41, 0x5E] &&
            Encode(c[10]) == [0x5D] &&
            Encode(c[11]) == [0xC3]
  {
    hide Encode, ToBytes;
    TestBytes();
    JumpPopBytes();
    MovBytes(RAX, 0x90);
    FarJumpBytes(0x1_0000_0000);
    FarJumpBytes(Wrap(base + 0x37f353));
  }

  method EmitResource(tr: array<Byte>, base: Word64) returns (p: nat)
    requires tr.Length == 0x1000
    modifies tr
    ensures p == 45 && tr[..p] == Assemble(ResourceCode(base))
  {
    hide Encode, Assemble, ToBytes, ResourceCode;
    ResourceBytes(base);
    ghost var code := ResourceCode(base);
    Empty(tr[..0], code);
    p := Put(tr, 0, [0x48, 0x85, 0xC0], code, 0);
    p := Put(tr, p, [0x74, 0x23], code, 1);
    p := Put(tr, p, [0x48, 0x8B, 0x80, 0x90, 0x00, 0x00, 0x00], code, 2);
    p := Put(tr, p, [0x49, 0xBB] + ToBytes(0x1_0000_0000, 8), code, 3);
    p := Put(tr, p, [0x4C, 0x39, 0xD8], code, 4);
    p := Put(tr, p, [0x72, 0x0D], code, 5);
    p := Put(tr, p, [0x49, 0xBB] + ToBytes(Wrap(base + 0x37f353), 8), code, 6);
    p := Put(tr, p, [0x41, 0xFF, 0xE3], code, 7);
    p := Put(tr, p, [0x5B], code, 8);
    p := Put(tr, p, [0x41, 0x5E], code, 9);
    p := Put(tr, p, [0x5D], code, 10);
    p := Put(tr, p, [0xC3], code, 11);
    assert code[..12] == code;
  }

  lemma TriggerBytes(base: Word64)
    ensures var c := TriggerCode(base);
            |c| == 7 && Encode(c[0]) == [0x4D, 0x85, 0xED] &&
            Encode(c[1]) == [0x74, 0x15] &&
            Encode(c[2]) == [0x41, 0x80, 0xBD, 0x01, 0x02, 0x00, 0x00, 0xFF] &&
            Encode(c[3]) == [0x49, 0xBB] + ToBytes(Wrap(base + 0x349c2e), 8) &&
            Encode(c[4]) == [0x41, 0xFF, 0xE3] &&
            Encode(c[5]) == [0x49, 0xBB] + ToBytes(Wrap(base + 0x349c86), 8) &&
            Encode(c[6]) == [0x41, 0xFF, 0xE3]
  {
    hide Encode, ToBytes;
    TestBytes();
    JumpPopBytes();
    CmpByteBytes();
    FarJumpBytes(Wrap(base + 0x349c2e));
    FarJumpBytes(Wrap(base + 0x349c86));
  }

  method EmitTrigger(tr: array<Byte>, base: Word64) returns (p: nat)
    requires tr.Length == 0x1000
    modifies tr
    ensures p == 39 && tr[..p] == Assemble(TriggerCode(base))
  {
    hide Encode, Assemble, ToBytes, TriggerCode;
    TriggerBytes(base);
    ghost var code := TriggerCode(base);
    Empty(tr[..0], code);
    p := Put(tr, 0, [0x4D, 0x85, 0xED], code, 0);
    p := Put(tr, p, [0x74, 0x15], code, 1);
    p := Put(tr, p, [0x41, 0x80, 0xBD, 0x01, 0x02, 0x00, 0x00, 0xFF], code, 2);
    p := Put(tr, p, [0x49, 0xBB] + ToBytes(Wrap(base + 0x349c2e), 8), code, 3);
    p := Put(tr, p, [0x41, 0xFF, 0xE3], code, 4);
    p := Put(tr, p, [0x49, 0xBB] + ToBytes(Wrap(base + 0x349c86), 8), code, 5);
    p := Put(tr, p, [0x41, 0xFF, 0xE3], code, 6);
    assert code[..7] == code;
  }

  lemma NotifyBytes(base: Word64)
    ensures var c := NotifyCode(base);
            |c| == 13 && Encode(c[0]) == [0x48, 0x85, 0xC0] &&
            Encode(c[1]) == [0x74, 0x2C] &&
            Encode(c[2]) == [0x48, 0x8B, 0xB0, 0x98, 0x00, 0x00, 0x00] &&
            Encode(c[3]) == [0x48, 0x8B, 0x80, 0xC0, 0x00, 0x00, 0x00] &&
            Encode(c[4]) == [0x48, 0x85, 0xC0] &&
            Encode(c[5]) == [0x74, 0x19] &&
            Encode(c[6]) == [0x48, 0x8B, 0x88, 0x90, 0x00, 0x00, 0x00] &&
            Encode(c[7]) == [0x48, 0x85, 0xC9] &&
            Encode(c[8]) == [0x74, 0x0D] &&
            Encode(c[9]) == [0x49, 0xBB] + ToBytes(Wrap(base + 0x4e6c46), 8) &&
            Encode(c[10]) == [0x41, 0xFF, 0xE3] &&
            Encode(c[11]) == [0x49, 0xBB] + ToBytes(Wrap(base + 0x4e6c53), 8) &&
            Encode(c[12]) == [0x41, 0xFF, 0xE3]
  {
    hide Encode, ToBytes;
    TestBytes();
    JumpPopBytes();
    MovBytes(RSI, 0x98);
    MovBytes(RAX, 0xC0);
    MovBytes(RCX, 0x90);
    FarJumpBytes(Wrap(base + 0x4e6c46));
    FarJumpBytes(Wrap(base + 0x4e6c53));
  }

  method EmitNotify(tr: array<Byte>, base: Word64) returns (p: nat)
    requires tr.Length == 0x1000
    modifies tr
    ensures p == 62 && tr[..p] == Assemble(NotifyCode(base))
  {
    hide Encode, Assemble, ToBytes, NotifyCode;
    NotifyBytes(base);
    ghost var code := NotifyCode(base);
    Empty(tr[..0], code);
    p := Put(tr, 0, [0x48, 0x85, 0xC0], code, 0);
    p := Put(tr, p, [0x74, 0x2C], code, 1);
    p := Put(tr, p, [0x48, 0x8B, 0xB0, 0x98, 0x00, 0x00, 0x00], code, 2);
    p := Put(tr, p, [0x48, 0x8B, 0x80, 0xC0, 0x00, 0x00, 0x00], code, 3);
    p := Put(tr, p, [0x48, 0x85, 0xC0], code, 4);
    p := Put(tr, p, [0x74, 0x19], code, 5);
    p := Put(tr, p, [0x48, 0x8B, 0x88, 0x90, 0x00, 0x00, 0x00], code, 6);
    p := Put(tr, p, [0x48, 0x85, 0xC9], code, 7);
    p := Put(tr, p, [0x74, 0x0D], code, 8);
    p := Put(tr, p, [0x49, 0xBB] + ToBytes(Wrap(base + 0x4e6c46), 8), code, 9);
    p := Put(tr, p, [0x41, 0xFF, 0xE3], code, 10);
    p := Put(tr, p, [0x49, 0xBB] + ToBytes(Wrap(base + 0x4e6c53), 8), code, 11);
    p := Put(tr, p, [0x41, 0xFF, 0xE3], code, 12);
    assert code[..13] == code;
  }


  // ---- The spinlock ----

  lemma SpinBytes(target: Word64)
    ensures var c := Spinlock.SpinCode(target);
            |c| == 11 && Encode(c[0]) == [0x50] && Encode(c[1]) == [0xB0, 0x01] &&
            Encode(c[2]) == [0x86, 0x05] + Disp32(55) && Encode(c[3]) == [0x84, 0xC0] &&
            Encode(c[4]) == [0x75, Unsigned8(-12)] && Encode(c[5]) == [0x58] &&
            Encode(c[6]) == [0xF0, 0xFF, 0x05] + Disp32(51) && Encode(c[7]) == [0x49, 0xBB] + ToBytes(target, 8) &&
            Encode(c[8]) == [0x41, 0xFF, 0xD3] && Encode(c[9]) == [0xC6, 0x05] + Disp32(23) + [0x00] &&
            Encode(c[10]) == [0xC3]
  {
    hide Encode, Disp32, ToBytes, Unsigned8;
    AcquireBytes();
    ReachBytes();
    FarJumpBytes(target);
  }

  lemma AcquireBytes()
    ensures Encode(Push(RAX)) == [0x50] && Encode(MovAl(1)) == [0xB0, 0x01] && Encode(TestAl) == [0x84, 0xC0]
    ensures Encode(JumpIf(NotEqual, -12)) == [0x75, Unsigned8(-12)] && Encode(Pop(RAX)) == [0x58]
    ensures Encode(CallReg(R11)) == [0x41, 0xFF, 0xD3] && Encode(Ret) == [0xC3]
  {
    hide Unsigned8;
  }

  lemma ReachBytes()
    ensures Encode(XchgAl(55)) == [0x86, 0x05] + Disp32(55)
    ensures Encode(LockInc(51)) == [0xF0, 0xFF, 0x05] + Disp32(51)
    ensures Encode(StoreByte(23, 0)) == [0xC6, 0x05] + Disp32(23) + [0x00]
  {
    hide Disp32;
  }

  /** The displacements are computed from the moving index, so that they reach the lock byte and the counter. */
  method EmitSpinlock(tr: array<Byte>, target: Word64) returns (p: nat)
    requires tr.Length == 0x80
    modifies tr
    ensures p == Spinlock.SIZE && tr[..p] == Assemble(Spinlock.SpinCode(target))
    ensures tr[0x40] == 0 && tr[0x48] == 0 && tr[0x49] == 0 && tr[0x4A] == 0 && tr[0x4B] == 0
  {
    hide Encode, Assemble, ToBytes, Disp32, Unsigned8, Spinlock.SpinCode;
    SpinBytes(target);
    ghost var code := Spinlock.SpinCode(target);
    Empty(tr[..0], code);
    p := Put(tr, 0, [0x50], code, 0);
    p := Put(tr, p, [0xB0, 0x01], code, 1);
    var lock: Int32 := 0x40 - (p + 2 + 4);
    p := Put(tr, p, [0x86, 0x05] + Disp32(lock), code, 2);
    p := Put(tr, p, [0x84, 0xC0], code, 3);
    var spin: Int8 := 0x01 - (p + 1 + 1);
    p := Put(tr, p, [0x75, Unsigned8(spin)], code, 4);
    p := Put(tr, p, [0x58], code, 5);
    var counter: Int32 := 0x48 - (p + 3 + 4);
    p := Put(tr, p, [0xF0, 0xFF, 0x05] + Disp32(counter), code, 6);
    p := Put(tr, p, [0x49, 0xBB] + ToBytes(target, 8), code, 7);
    p := Put(tr, p, [0x41, 0xFF, 0xD3], code, 8);
    lock := 0x40 - (p + 2 + 5);
    p := Put(tr, p, [0xC6, 0x05] + Disp32(lock) + [0x00], code, 9);
    p := Put(tr, p, [0xC3], code, 10);
    assert code[..11] == code;
    Data(tr, p);
  }

  /** The lock byte and the counter start at zero, past the code. */
  method Data(tr: array<Byte>, p: nat)
    requires tr.Length == 0x80 && p <= 0x40
    modifies tr
    ensures tr[..p] == old(tr[..p])
    ensures tr[0x40] == 0 && tr[0x48] == 0 && tr[0x49] == 0 && tr[0x4A] == 0 && tr[0x4B] == 0
  {
    tr[0x40] := 0;
    forall j | 0 <= j < 4 {
      tr[0x48 + j] := 0;
    }
  }

  // ---- The jump at the patch site ----

  function Nops(n: nat): (s: seq<Byte>)
    ensures |s| == n && forall i | 0 <= i < n :: s[i] == 0x90
  {
    seq(n, i => 0x90)
  }

  predicate InReach(rel: int) {
    -0x8000_0000 <= rel < 0x8000_0000
  }

  /** A near jump over the displaced instructions, filled up with no-ops. */
  function Detour(rel: Int32, size: nat): (s: seq<Byte>)
    requires size >= 5
    ensures |s| == size
  {
    [0xE9] + Disp32(rel) + Nops(size - 5)
  }

  /** The jump is written only when the trampoline is within reach; otherwise the code stays as it is. */
  method PatchSite(img: array<Byte>, base: Word64, site: nat, size: nat, tr: Word64) returns (done: bool)
    requires 5 <= size && site + size <= img.Length
    modifies img
    ensures var rel := tr - (base + site + 5);
            done == InReach(rel) &&
            img[..] == if done then Splice(old(img[..]), site, Detour(rel, size)) else old(img[..])
  {
    hide Disp32;
    var rel := tr - (base + site + 5);
    if rel < -0x8000_0000 || rel > 0x7FFF_FFFF {
      return false;
    }
    var bytes := Disp32(rel);
    ghost var detour := Detour(rel, size);
    img[site] := 0xE9;
    forall i | 0 <= i < 4 {
      img[site + 1 + i] := bytes[i];
    }
    for i := 5 to size
      invariant forall k | 0 <= k < i :: img[site + k] == detour[k]
      invariant forall k | 0 <= k < img.Length && !(site <= k < site + size) :: img[k] == old(img[k])
    {
      img[site + i] := 0x90;
    }
    assert img[..] == Splice(old(img[..]), site, detour);
    return true;
  }

  /** A thread that comes to the patch site goes to the trampoline with everything else unchanged. */
  lemma DetourEnters(m: seq<Byte>, base: Word64, site: nat, size: nat, tr: Word64, t: Thread, mem: Memory)
    requires 5 <= size && site + size <= |m| && base + |m| < TWO64 && t.rip == base + site
    requires InReach(tr - (base + site + 5))
    ensures Step(Splice(m, site, Detour(tr - (base + site + 5), size)), base, Running(t, mem)) ==
            Running(t.(rip := tr), mem)
  {
    hide Decode, Splice, Detour, Exec;
    DetourDecodes(m, site, size, tr - (base + site + 5));
    JumpArrives(base + site + 5, tr, t, mem);
  }

  lemma JumpArrives(from: Word64, tr: Word64, t: Thread, mem: Memory)
    requires InReach(tr - from)
    ensures Exec(JumpNear(tr - from), t.(rip := from), mem) == Running(t.(rip := tr), mem)
  {
  }

  lemma DetourDecodes(m: seq<Byte>, site: nat, size: nat, rel: Int32)
    requires 5 <= size && site + size <= |m|
    ensures Decode(Splice(m, site, Detour(rel, size))[site..]) == Some(Decoded(JumpNear(rel), 5))
  {
    hide Encode, Decode, Disp32;
    var code := Splice(m, site, Detour(rel, size));
    JumpBytes(rel);
    assert code[site..] == Encode(JumpNear(rel)) + code[site + 5..];
    DecodeEncode(JumpNear(rel), code[site + 5..]);
  }

  lemma JumpBytes(rel: Int32)
    ensures Encode(JumpNear(rel)) == [0xE9] + Disp32(rel)
  {
  }
}
