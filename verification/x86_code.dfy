/** The machine instructions that the loader emits: their bytes, and what bytes decode to. */
module X86Code {

  import opened Options
  import opened ByteImage

  type Reg = r: nat | r < 16
  type Int8 = x: int | -0x80 <= x < 0x80
  type Int32 = x: int | -0x8000_0000 <= x < 0x8000_0000

  const RAX: Reg := 0
  const RCX: Reg := 1
  const RBX: Reg := 3
  const RSP: Reg := 4
  const RBP: Reg := 5
  const RSI: Reg := 6
  const R11: Reg := 11
  const R13: Reg := 13
  const R14: Reg := 14

  datatype Cond = Below | Equal | NotEqual

  /** Displacements without a base register are relative to the next instruction. */
  datatype Instr =
    | Push(r: Reg)
    | Pop(r: Reg)
    | MovAl(imm: Byte)
    | XchgAl(disp: Int32)
    | TestAl
    | TestSelf(r: Reg)
    | Cmp(a: Reg, b: Reg)
    | Load(r: Reg, base: Reg, disp: Int32)
    | CmpByte(base: Reg, disp: Int32, imm: Byte)
    | JumpIf(cond: Cond, rel: Int8)
    | LockInc(disp: Int32)
    | MovImm(r: Reg, value: Word64)
    | CallReg(r: Reg)
    | JumpReg(r: Reg)
    | StoreByte(disp: Int32, imm: Byte)
    | Ret
    | JumpNear(target: Int32)
    | Nop

  function CondCode(c: Cond): Byte {
    match c
    case Below => 0x72
    case Equal => 0x74
    case NotEqual => 0x75
  }

  function Unsigned8(x: Int8): Byte { x % 0x100 }

  function Signed8(b: Byte): Int8 { if b >= 0x80 then b - 0x100 else b }

  function Disp32(x: Int32): (s: seq<Byte>)
    ensures |s| == 4
  {
    ToBytes(x % 0x1_0000_0000, 4)
  }

  function Signed32(s: seq<Byte>): Int32
    requires |s| == 4
  {
    BytesBound(s);
    assert Power256(4) == 0x1_0000_0000 by { assert Power256(2) == 0x1_0000; }
    var v := FromBytes(s);
    if v >= 0x8000_0000 then v - 0x1_0000_0000 else v
  }

  /** A REX prefix where only the extension of r needs one. */
  function RexB(r: Reg): seq<Byte> { if r >= 8 then [0x41] else [] }

  /** A REX prefix for 64-bit operands. */
  function RexW(reg: Reg, rm: Reg): Byte { 0x48 + 4 * (reg / 8) + rm / 8 }

  /** The addressing byte. */
  function ModRM(mode: nat, reg: Reg, rm: Reg): Byte
    requires mode < 4
  {
    0x40 * mode + 8 * (reg % 8) + rm % 8
  }

  /** Base registers whose low bits are 100 would need another addressing byte. */
  predicate Encodable(i: Instr) {
    match i
    case Load(_, base, _) => base % 8 != 4
    case CmpByte(base, _, _) => base % 8 != 4
    case _ => true
  }

  function Size(i: Instr): nat {
    match i
    case Push(r) => if r >= 8 then 2 else 1
    case Pop(r) => if r >= 8 then 2 else 1
    case MovAl(_) => 2
    case XchgAl(_) => 6
    case TestAl => 2
    case TestSelf(_) => 3
    case Cmp(_, _) => 3
    case Load(_, _, _) => 7
    case CmpByte(base, _, _) => if base >= 8 then 8 else 7
    case JumpIf(_, _) => 2
    case LockInc(_) => 7
    case MovImm(_, _) => 10
    case CallReg(r) => if r >= 8 then 3 else 2
    case JumpReg(r) => if r >= 8 then 3 else 2
    case StoreByte(_, _) => 7
    case Ret => 1
    case JumpNear(_) => 5
    case Nop => 1
  }

  function Encode(i: Instr): seq<Byte> {
    match i
    case Push(r) => RexB(r) + [0x50 + r % 8]
    case Pop(r) => RexB(r) + [0x58 + r % 8]
    case MovAl(imm) => [0xB0, imm]
    case XchgAl(disp) => [0x86, 0x05] + Disp32(disp)
    case TestAl => [0x84, 0xC0]
    case TestSelf(r) => [RexW(r, r), 0x85, ModRM(3, r, r)]
    case Cmp(a, b) => [RexW(b, a), 0x39, ModRM(3, b, a)]
    case Load(r, base, disp) => [RexW(r, base), 0x8B, ModRM(2, r, base)] + Disp32(disp)
    case CmpByte(base, disp, imm) => RexB(base) + [0x80, ModRM(2, 7, base)] + Disp32(disp) + [imm]
    case JumpIf(cond, rel) => [CondCode(cond), Unsigned8(rel)]
    case LockInc(disp) => [0xF0, 0xFF, 0x05] + Disp32(disp)
    case MovImm(r, value) => [RexW(0, r), 0xB8 + r % 8] + ToBytes(value, 8)
    case CallReg(r) => RexB(r) + [0xFF, 0xD0 + r % 8]
    case JumpReg(r) => RexB(r) + [0xFF, 0xE0 + r % 8]
    case StoreByte(disp, imm) => [0xC6, 0x05] + Disp32(disp) + [imm]
    case Ret => [0xC3]
    case JumpNear(target) => [0xE9] + Disp32(target)
    case Nop => [0x90]
  }

  lemma EncodeSize(i: Instr)
    ensures |Encode(i)| == Size(i) > 0
  {
    hide RexW, ModRM, ToBytes;
  }

  datatype Decoded = Decoded(instr: Instr, size: nat)

  /** The prefix bits: 64-bit operands, and the high bits of the reg and rm fields. */
  datatype Rex = Rex(w: nat, r: nat, b: nat)

  function Decode(c: seq<Byte>): Option<Decoded> {
    if |c| > 0 && 0x40 <= c[0] < 0x50 then
      match Opcode(c[1..], Rex(c[0] / 8 % 2, c[0] / 4 % 2, c[0] % 2))
      case Some(d) => Some(Decoded(d.instr, d.size + 1))
      case None => None
    else Opcode(c, Rex(0, 0, 0))
  }

  function Opcode(c: seq<Byte>, x: Rex): Option<Decoded>
    requires x.r < 2 && x.b < 2
  {
    if |c| == 0 then None
    else if 0x50 <= c[0] < 0x58 then Some(Decoded(Push(c[0] - 0x50 + 8 * x.b), 1))
    else if 0x58 <= c[0] < 0x60 then Some(Decoded(Pop(c[0] - 0x58 + 8 * x.b), 1))
    else if c[0] == 0xC3 then Some(Decoded(Ret, 1))
    else if c[0] == 0x90 && x.b == 0 then Some(Decoded(Nop, 1))
    else if |c| < 2 then None
    else if c[0] == 0xB0 && x.b == 0 then Some(Decoded(MovAl(c[1]), 2))
    else if c[0] == 0x84 && c[1] == 0xC0 && x.r == 0 && x.b == 0 then Some(Decoded(TestAl, 2))
    else if c[0] == 0x72 then Some(Decoded(JumpIf(Below, Signed8(c[1])), 2))
    else if c[0] == 0x74 then Some(Decoded(JumpIf(Equal, Signed8(c[1])), 2))
    else if c[0] == 0x75 then Some(Decoded(JumpIf(NotEqual, Signed8(c[1])), 2))
    else if c[0] == 0xFF && 0xD0 <= c[1] < 0xD8 then Some(Decoded(CallReg(c[1] - 0xD0 + 8 * x.b), 2))
    else if c[0] == 0xFF && 0xE0 <= c[1] < 0xE8 then Some(Decoded(JumpReg(c[1] - 0xE0 + 8 * x.b), 2))
    else if (c[0] == 0x85 || c[0] == 0x39) && x.w == 1 && c[1] >= 0xC0 then RegReg(c, x)
    else Long(c, x)
  }

  function RegReg(c: seq<Byte>, x: Rex): Option<Decoded>
    requires |c| >= 2 && c[1] >= 0xC0 && x.r < 2 && x.b < 2
  {
    var reg, rm := c[1] / 8 % 8 + 8 * x.r, c[1] % 8 + 8 * x.b;
    if c[0] == 0x39 then Some(Decoded(Cmp(rm, reg), 2))
    else if reg == rm then Some(Decoded(TestSelf(reg), 2))
    else None
  }

  /** The instructions with a displacement or a wide immediate. */
  function Long(c: seq<Byte>, x: Rex): Option<Decoded>
    requires |c| >= 2 && x.r < 2 && x.b < 2
  {
    if c[0] == 0xE9 then if |c| < 5 then None else Some(Decoded(JumpNear(Signed32(c[1..5])), 5))
    else if |c| < 6 then None
    else if c[0] == 0x86 && c[1] == 0x05 && x.r == 0 then Some(Decoded(XchgAl(Signed32(c[2..6])), 6))
    else if c[0] == 0x8B && x.w == 1 && 0x80 <= c[1] < 0xC0 && c[1] % 8 != 4 then
      Some(Decoded(Load(c[1] / 8 % 8 + 8 * x.r, c[1] % 8 + 8 * x.b, Signed32(c[2..6])), 6))
    else if |c| < 7 then None
    else if c[0] == 0xF0 && c[1] == 0xFF && c[2] == 0x05 then Some(Decoded(LockInc(Signed32(c[3..7])), 7))
    else if c[0] == 0xC6 && c[1] == 0x05 then Some(Decoded(StoreByte(Signed32(c[2..6]), c[6]), 7))
    else if c[0] == 0x80 && 0xB8 <= c[1] < 0xC0 && c[1] % 8 != 4 then
      Some(Decoded(CmpByte(c[1] % 8 + 8 * x.b, Signed32(c[2..6]), c[6]), 7))
    else if |c| >= 9 && 0xB8 <= c[0] < 0xC0 && x.w == 1 then
      EightBytes();
      BytesBound(c[1..9]);
      Some(Decoded(MovImm(c[0] - 0xB8 + 8 * x.b, FromBytes(c[1..9])), 9))
    else None
  }

  lemma DispRoundTrip(x: Int32)
    ensures Signed32(Disp32(x)) == x
  {
    assert Power256(4) == 0x1_0000_0000 by { assert Power256(2) == 0x1_0000; }
    FromToBytes(x % 0x1_0000_0000, 4);
  }

  /** Decoding undoes encoding, whatever bytes follow. */
  lemma DecodeEncode(i: Instr, rest: seq<Byte>)
    requires Encodable(i)
    ensures Decode(Encode(i) + rest) == Some(Decoded(i, Size(i)))
  {
    EncodeSize(i);
    match i {
      case Push(r) => PushPop(r, rest);
      case Pop(r) => PushPop(r, rest);
      case CallReg(r) => CallJump(r, rest);
      case JumpReg(r) => CallJump(r, rest);
      case TestSelf(r) => RegRegRoundTrip(r, r, rest);
      case Cmp(a, b) => RegRegRoundTrip(a, b, rest);
      case XchgAl(disp) => LongRoundTrip(i, disp, rest);
      case LockInc(disp) => LongRoundTrip(i, disp, rest);
      case StoreByte(disp, _) => LongRoundTrip(i, disp, rest);
      case JumpNear(target) => LongRoundTrip(i, target, rest);
      case Load(r, base, disp) => LoadRoundTrip(r, base, disp, rest);
      case CmpByte(base, disp, imm) => CmpByteRoundTrip(base, disp, imm, rest);
      case MovImm(r, value) => MovImmRoundTrip(r, value, rest);
      case JumpIf(cond, rel) =>
        assert (Encode(i) + rest)[1] == Unsigned8(rel);
      case _ =>
    }
  }

  /** Where only the register may need a prefix. */
  lemma DecodeRexB(r: Reg, c: seq<Byte>, instr: Instr, size: nat)
    requires |c| > 0 && !(0x40 <= c[0] < 0x50)
    requires Opcode(c, Rex(0, 0, r / 8)) == Some(Decoded(instr, size))
    ensures Decode(RexB(r) + c) == Some(Decoded(instr, size + if r >= 8 then 1 else 0))
  {
    hide Opcode;
    if r >= 8 {
      assert (RexB(r) + c)[1..] == c;
    } else {
      assert RexB(r) + c == c;
    }
  }

  lemma PushPop(r: Reg, rest: seq<Byte>)
    ensures Decode(Encode(Push(r)) + rest) == Some(Decoded(Push(r), Size(Push(r))))
    ensures Decode(Encode(Pop(r)) + rest) == Some(Decoded(Pop(r), Size(Pop(r))))
  {
    hide Decode, RexB;
    var c, d := [0x50 + r % 8] + rest, [0x58 + r % 8] + rest;
    DecodeRexB(r, c, Push(r), 1);
    DecodeRexB(r, d, Pop(r), 1);
    assert RexB(r) + c == Encode(Push(r)) + rest;
    assert RexB(r) + d == Encode(Pop(r)) + rest;
  }

  lemma CallJump(r: Reg, rest: seq<Byte>)
    ensures Decode(Encode(CallReg(r)) + rest) == Some(Decoded(CallReg(r), Size(CallReg(r))))
    ensures Decode(Encode(JumpReg(r)) + rest) == Some(Decoded(JumpReg(r), Size(JumpReg(r))))
  {
    hide Decode, RexB;
    var c, d := [0xFF, 0xD0 + r % 8] + rest, [0xFF, 0xE0 + r % 8] + rest;
    DecodeRexB(r, c, CallReg(r), 2);
    DecodeRexB(r, d, JumpReg(r), 2);
    assert RexB(r) + c == Encode(CallReg(r)) + rest;
    assert RexB(r) + d == Encode(JumpReg(r)) + rest;
  }

  lemma RexFields(reg: Reg, rm: Reg)
    ensures var x := RexW(reg, rm);
            0x48 <= x < 0x50 && x / 8 % 2 == 1 && x / 4 % 2 == reg / 8 && x % 2 == rm / 8
  {
    assert reg / 8 == 0 || reg / 8 == 1;
    assert rm / 8 == 0 || rm / 8 == 1;
  }

  lemma ModRMFields(mode: nat, reg: Reg, rm: Reg)
    requires mode < 4
    ensures var m := ModRM(mode, reg, rm);
            m / 8 % 8 == reg % 8 && m % 8 == rm % 8 && 0x40 * mode <= m < 0x40 * mode + 0x40
  {
    var high, low := reg % 8, rm % 8;
    assert (0x40 * mode + 8 * high + low) / 8 == 8 * mode + high;
  }

  /** With a 64-bit prefix, the rest is decoded with the prefix's fields. */
  lemma DecodeWide(reg: Reg, rm: Reg, c: seq<Byte>, instr: Instr, size: nat)
    requires Opcode(c, Rex(1, reg / 8, rm / 8)) == Some(Decoded(instr, size))
    ensures Decode([RexW(reg, rm)] + c) == Some(Decoded(instr, size + 1))
  {
    hide Opcode, RexW;
    RexFields(reg, rm);
    assert ([RexW(reg, rm)] + c)[1..] == c;
  }

  lemma RegRegRoundTrip(a: Reg, b: Reg, rest: seq<Byte>)
    ensures Decode(Encode(Cmp(a, b)) + rest) == Some(Decoded(Cmp(a, b), 3))
    ensures Decode(Encode(TestSelf(a)) + rest) == Some(Decoded(TestSelf(a), 3))
  {
    hide Decode, RexW, ModRM;
    ModRMFields(3, b, a);
    ModRMFields(3, a, a);
    var c, d := [0x39, ModRM(3, b, a)] + rest, [0x85, ModRM(3, a, a)] + rest;
    DecodeWide(b, a, c, Cmp(a, b), 2);
    DecodeWide(a, a, d, TestSelf(a), 2);
    assert [RexW(b, a)] + c == Encode(Cmp(a, b)) + rest;
    assert [RexW(a, a)] + d == Encode(TestSelf(a)) + rest;
  }

  lemma LongRoundTrip(i: Instr, disp: Int32, rest: seq<Byte>)
    requires i == XchgAl(disp) || i == LockInc(disp) || i == JumpNear(disp) || (i.StoreByte? && i.disp == disp)
    ensures Decode(Encode(i) + rest) == Some(Decoded(i, Size(i)))
  {
    hide ToBytes, FromBytes;
    DispRoundTrip(disp);
    var c := Encode(i) + rest;
    if i.LockInc? {
      assert c[3..7] == Disp32(disp);
    } else if i.JumpNear? {
      assert c[1..5] == Disp32(disp);
    } else {
      assert c[2..6] == Disp32(disp);
    }
  }

  lemma LoadRoundTrip(r: Reg, base: Reg, disp: Int32, rest: seq<Byte>)
    requires base % 8 != 4
    ensures Decode(Encode(Load(r, base, disp)) + rest) == Some(Decoded(Load(r, base, disp), 7))
  {
    hide Decode, RexW, ModRM, Disp32, Signed32;
    DispRoundTrip(disp);
    ModRMFields(2, r, base);
    var c := [0x8B, ModRM(2, r, base)] + Disp32(disp) + rest;
    assert c[2..6] == Disp32(disp);
    DecodeWide(r, base, c, Load(r, base, disp), 6);
    assert [RexW(r, base)] + c == Encode(Load(r, base, disp)) + rest;
  }

  lemma CmpByteRoundTrip(base: Reg, disp: Int32, imm: Byte, rest: seq<Byte>)
    requires base % 8 != 4
    ensures Decode(Encode(CmpByte(base, disp, imm)) + rest) ==
            Some(Decoded(CmpByte(base, disp, imm), Size(CmpByte(base, disp, imm))))
  {
    hide Decode, RexB, ModRM, Disp32, Signed32;
    DispRoundTrip(disp);
    ModRMFields(2, 7, base);
    ModRMOf7(base);
    var c := [0x80, ModRM(2, 7, base)] + Disp32(disp) + [imm] + rest;
    assert c[2..6] == Disp32(disp);
    DecodeRexB(base, c, CmpByte(base, disp, imm), 7);
    assert RexB(base) + c == Encode(CmpByte(base, disp, imm)) + rest;
  }

  lemma ModRMOf7(base: Reg)
    ensures 0xB8 <= ModRM(2, 7, base) < 0xC0
  {
  }

  lemma OpcodeMovImm(r: Reg, value: Word64, rest: seq<Byte>)
    ensures Opcode([0xB8 + r % 8] + ToBytes(value, 8) + rest, Rex(1, 0, r / 8)) == Some(Decoded(MovImm(r, value), 9))
  {
    hide FromBytes, ToBytes;
    EightBytes();
    FromToBytes(value, 8);
    var c := [0xB8 + r % 8] + ToBytes(value, 8) + rest;
    assert c[1..9] == ToBytes(value, 8);
  }

  lemma MovImmRoundTrip(r: Reg, value: Word64, rest: seq<Byte>)
    ensures Decode(Encode(MovImm(r, value)) + rest) == Some(Decoded(MovImm(r, value), 10))
  {
    hide Decode, Opcode, RexW, ToBytes;
    var c := [0xB8 + r % 8] + ToBytes(value, 8) + rest;
    OpcodeMovImm(r, value, rest);
    DecodeWide(0, r, c, MovImm(r, value), 9);
    assert [RexW(0, r)] + c == Encode(MovImm(r, value)) + rest;
  }

  // ---- Programs ----

  function Assemble(p: seq<Instr>): seq<Byte> {
    if |p| == 0 then [] else Assemble(p[..|p| - 1]) + Encode(p[|p| - 1])
  }

  /** Where instruction k starts. */
  function Offset(p: seq<Instr>, k: nat): nat
    requires k <= |p|
  {
    if k == 0 then 0 else Offset(p, k - 1) + Size(p[k - 1])
  }

  lemma OffsetNext(p: seq<Instr>, k: nat)
    requires k < |p|
    ensures Offset(p, k + 1) == Offset(p, k) + Size(p[k])
  {
  }

  lemma AssembleAppend(p: seq<Instr>, i: Instr)
    ensures Assemble(p + [i]) == Assemble(p) + Encode(i)
  {
    assert (p + [i])[..|p|] == p;
  }

  lemma {:induction false} PrefixSize(p: seq<Instr>, k: nat)
    requires k <= |p|
    ensures |Assemble(p[..k])| == Offset(p, k)
  {
    hide Encode;
    if k > 0 {
      EncodeSize(p[k - 1]);
      PrefixSize(p, k - 1);
      assert p[..k][..k - 1] == p[..k - 1];
    }
  }

  lemma {:induction false} PrefixOf(p: seq<Instr>, k: nat) returns (rest: seq<Byte>)
    requires k <= |p|
    ensures Assemble(p) == Assemble(p[..k]) + rest
    decreases |p| - k
  {
    hide Encode;
    if k == |p| {
      assert p[..k] == p;
      rest := [];
    } else {
      var tail := PrefixOf(p, k + 1);
      assert p[..k + 1][..k] == p[..k];
      rest := Encode(p[k]) + tail;
    }
  }

  /** Decoding at an instruction's offset finds that instruction. */
  lemma FetchAt(p: seq<Instr>, k: nat)
    requires k < |p| && Encodable(p[k])
    ensures Offset(p, k) <= |Assemble(p)|
    ensures Decode(Assemble(p)[Offset(p, k)..]) == Some(Decoded(p[k], Size(p[k])))
  {
    hide Encode, Decode, Offset;
    PrefixSize(p, k);
    var rest := SplitAt(p, k);
    assert Assemble(p)[Offset(p, k)..] == Encode(p[k]) + rest;
    DecodeEncode(p[k], rest);
  }

  lemma SplitAt(p: seq<Instr>, k: nat) returns (rest: seq<Byte>)
    requires k < |p|
    ensures Assemble(p) == Assemble(p[..k]) + (Encode(p[k]) + rest)
  {
    hide Encode;
    rest := PrefixOf(p, k + 1);
    assert p[..k + 1][..k] == p[..k];
  }

  lemma ByteByByte(v: nat)
    ensures ToBytes(v, 4) == [v % 0x100, v / 0x100 % 0x100, v / 0x1_0000 % 0x100, v / 0x100_0000 % 0x100]
  {
    assert ToBytes(v / 0x100_0000, 1) == [v / 0x100_0000 % 0x100] + ToBytes(v / 0x100_0000 / 0x100, 0);
    assert ToBytes(v / 0x1_0000, 2) == [v / 0x1_0000 % 0x100] + ToBytes(v / 0x100_0000, 1);
    assert ToBytes(v / 0x100, 3) == [v / 0x100 % 0x100] + ToBytes(v / 0x1_0000, 2);
  }
}
