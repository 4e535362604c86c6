/** What the three detours come to, told from the registers, the stack and the bytes of memory.
    Registers: 0 is rax, 1 rcx, 3 rbx, 4 rsp, 5 rbp, 6 rsi, 13 r13, 14 r14. */
module DetourOutcomes {

  import opened Options
  import opened ByteImage
  import opened X86Code
  import opened X86Machine
  import opened X86Runs
  import opened NullSafe

  // ---- Words of memory ----

  /** The address k bytes on, round the end of the address space. */
  function Beyond(a: Word64, k: nat): Word64 { (a + k) % 0x1_0000_0000_0000_0000 }

  predicate Mapped(m: Memory, a: Word64, n: nat) {
    forall k: nat | k < n :: Beyond(a, k) in m
  }

  /** The eight bytes from address a on are those of v. */
  predicate WordAt(m: Memory, a: Word64, v: Word64) {
    Mapped(m, a, 8) && forall k: nat | k < 8 :: m[Beyond(a, k)] == ToBytes(v, 8)[k]
  }

  /** n bytes are loaded exactly when all of them are mapped. */
  lemma {:induction false} LoadsBytes(m: Memory, a: Word64, n: nat)
    ensures LoadBytes(m, a, n).Some? <==> Mapped(m, a, n)
    ensures LoadBytes(m, a, n).Some? ==> forall k: nat | k < n :: m[Beyond(a, k)] == LoadBytes(m, a, n).value[k]
    decreases n
  {
    hide Beyond;
    if n > 0 {
      LoadsBytes(m, Wrap(a + 1), n - 1);
      Beginning(a);
      if a in m {
        assert Mapped(m, a, n) <==> Mapped(m, Wrap(a + 1), n - 1) by { MappedOn(m, a, n); }
        if Mapped(m, a, n) {
          forall k: nat | k < n
            ensures m[Beyond(a, k)] == LoadBytes(m, a, n).value[k]
          {
            if k > 0 {
              OneBeyond(a, k - 1);
            }
          }
        }
      }
    }
  }

  lemma Beginning(a: Word64)
    ensures Beyond(a, 0) == a
  {
  }

  lemma OneBeyond(a: Word64, k: nat)
    ensures Beyond(a, k + 1) == Beyond(Wrap(a + 1), k)
  {
  }

  lemma MappedOn(m: Memory, a: Word64, n: nat)
    requires n > 0 && a in m
    ensures Mapped(m, a, n) <==> Mapped(m, Wrap(a + 1), n - 1)
  {
    hide Beyond;
    Beginning(a);
    var b := Wrap(a + 1);
    if Mapped(m, a, n) {
      forall k: nat | k < n - 1 ensures Beyond(b, k) in m {
        OneBeyond(a, k);
      }
    }
    if Mapped(m, Wrap(a + 1), n - 1) {
      forall k: nat | k < n ensures Beyond(a, k) in m {
        if k > 0 {
          OneBeyond(a, k - 1);
        }
      }
    }
  }

  lemma LoadsWord(m: Memory, a: Word64, v: Word64)
    ensures Load64(m, a).Some? <==> Mapped(m, a, 8)
    ensures WordAt(m, a, v) ==> Load64(m, a) == Some(v)
  {
    hide ToBytes, FromBytes;
    LoadsBytes(m, a, 8);
    if WordAt(m, a, v) {
      assert Mapped(m, a, 8);
      assert LoadBytes(m, a, 8).value == ToBytes(v, 8);
      EightBytes();
      FromToBytes(v, 8);
    }
  }

  // ---- The outcomes ----

  /** The function has returned: the caller's rbx, r14 and rbp and the return address come from the stack. */
  predicate HasReturned(t: Thread, u: Thread) {
    var n := |t.stack|;
    && n >= 4 && u.stack == t.stack[..n - 4] && u.rip == t.stack[n - 4]
    && u.reg[3] == t.stack[n - 1] && u.reg[14] == t.stack[n - 2] && u.reg[5] == t.stack[n - 3]
    && u.reg[4] == Beyond(t.reg[4], 32)
    && forall r | 0 <= r < 16 && r !in {3, 4, 5, 14} :: u.reg[r] == t.reg[r]
  }

  lemma PopOutcome(t: Thread, m: Memory, r: Reg)
    requires r != RSP
    ensures var c := Exec(Pop(r), t, m);
            var n := |t.stack|;
            if n == 0 then c == Fault
            else
              && c.Running? && c.mem == m && c.t.rip == t.rip && c.t.stack == t.stack[..n - 1]
              && c.t.reg[r] == t.stack[n - 1] && c.t.reg[4] == Beyond(t.reg[4], 8)
              && forall k | 0 <= k < 16 && k != r && k != 4 :: c.t.reg[k] == t.reg[k]
  {
  }

  lemma RetOutcome(t: Thread, m: Memory)
    ensures var c := Exec(Ret, t, m);
            var n := |t.stack|;
            if n == 0 then c == Fault
            else
              && c.Running? && c.mem == m && c.t.rip == t.stack[n - 1] && c.t.stack == t.stack[..n - 1]
              && c.t.reg[4] == Beyond(t.reg[4], 8)
              && forall k | 0 <= k < 16 && k != 4 :: c.t.reg[k] == t.reg[k]
  {
  }

  lemma BeyondTwice(a: Word64, j: nat, k: nat)
    ensures Beyond(Beyond(a, j), k) == Beyond(a, j + k)
  {
    var q := (a + j) / TWO64;
    assert a + j == TWO64 * q + Beyond(a, j);
  }

  /** Leaving needs three words and a return address on the stack. */
  lemma LeaveOutcome(t: Thread, m: Memory)
    ensures var c := Leave(Running(t, m));
            if |t.stack| < 4 then c == Fault else c.Running? && c.mem == m && HasReturned(t, c.t)
  {
    hide Exec, Beyond;
    var c0 := Running(t, m);
    PopOutcome(t, m, RBX);
    var c1 := Then(c0, Pop(RBX));
    if c1.Running? {
      PopOutcome(c1.t, m, R14);
      var c2 := Then(c1, Pop(R14));
      if c2.Running? {
        PopOutcome(c2.t, m, RBP);
        var c3 := Then(c2, Pop(RBP));
        if c3.Running? {
          RetOutcome(c3.t, m);
          BeyondTwice(t.reg[4], 8, 8);
          BeyondTwice(t.reg[4], 16, 8);
          BeyondTwice(t.reg[4], 24, 8);
          var n := |t.stack|;
          assert c3.t.stack == t.stack[..n - 3];
        }
      }
    }
  }

  lemma LoadOutcome(t: Thread, m: Memory, r: Reg, base: Reg, disp: Int32, v: Word64)
    ensures var a := Wrap(t.reg[base] + disp);
            var c := Loaded(Running(t, m), r, base, disp);
            && (WordAt(m, a, v) ==> c == Running(t.(reg := t.reg[r := v]), m))
            && (!Mapped(m, a, 8) ==> c == Fault)
  {
    hide WordAt, Mapped, Load64;
    LoadsWord(m, Wrap(t.reg[base] + disp), v);
  }

  /** At 0x37f34c: with rax null the function returns; otherwise the word v at [rax + 0x90] is loaded into rax, and the
      function goes on at 0x37f353 if v is at least 2^32, and returns if it is below. */
  lemma ResourceOutcome(base: Word64, t: Thread, m: Memory, v: Word64)
    ensures var a := Beyond(t.reg[0], 0x90);
            var c := GuardedResource(base, t, m);
            var u := t.(reg := t.reg[0 := v]);
            if t.reg[0] == 0 then
              if |t.stack| < 4 then c == Fault else c.Running? && c.mem == m && HasReturned(t, c.t)
            else
              && (!Mapped(m, a, 8) ==> c == Fault)
              && (WordAt(m, a, v) ==>
                    if v >= 0x1_0000_0000 then c == Running(u.(rip := (base + 0x37f353) % 0x1_0000_0000_0000_0000), m)
                    else if |t.stack| < 4 then c == Fault
                    else c.Running? && c.mem == m && HasReturned(u, c.t))
  {
    hide WordAt, Mapped, Load64, HasReturned, Leave;
    LoadOutcome(t, m, RAX, RAX, 0x90, v);
    LeaveOutcome(t, m);
    LeaveOutcome(t.(reg := t.reg[0 := v]), m);
  }

  /** At 0x349c26: with r13 null the function goes on at 0x349c86 with nothing changed; otherwise the byte at
      [r13 + 0x201] is compared with 0xFF, and it goes on at 0x349c2e. */
  lemma TriggerOutcome(base: Word64, t: Thread, m: Memory)
    ensures var a := Beyond(t.reg[13], 0x201);
            var c := GuardedTrigger(base, t, m);
            if t.reg[13] == 0 then c == Running(t.(rip := (base + 0x349c86) % 0x1_0000_0000_0000_0000), m)
            else if a !in m then c == Fault
            else
              && c.Running? && c.mem == m && c.t.reg == t.reg && c.t.stack == t.stack
              && c.t.rip == (base + 0x349c2e) % 0x1_0000_0000_0000_0000
              && (c.t.flags.Zero() <==> m[a] == 255) && (c.t.flags.Carry() <==> m[a] < 255)
  {
  }

  /** At 0x4e6c31: with rax null the function goes on at 0x4e6c53 with nothing changed; otherwise rsi becomes the word
      at [rax + 0x98] and rax the word at [rax + 0xc0], and, if that is not null, rcx the word at [rax + 0x90]; with
      null words it goes on at 0x4e6c53, and otherwise at 0x4e6c46. */
  lemma NotifyOutcome(base: Word64, t: Thread, m: Memory, rsi: Word64, rax: Word64, rcx: Word64)
    ensures var a := Beyond(t.reg[0], 0x98);
            var b := Beyond(t.reg[0], 0xC0);
            var d := Beyond(rax, 0x90);
            var skip := (base + 0x4e6c53) % 0x1_0000_0000_0000_0000;
            var next := (base + 0x4e6c46) % 0x1_0000_0000_0000_0000;
            var c := GuardedNotify(base, t, m);
            var u := t.(reg := t.reg[6 := rsi][0 := rax]);
            if t.reg[0] == 0 then c == Running(t.(rip := skip), m)
            else
              && (!Mapped(m, a, 8) ==> c == Fault)
              && (WordAt(m, a, rsi) && !Mapped(m, b, 8) ==> c == Fault)
              && (WordAt(m, a, rsi) && WordAt(m, b, rax) ==>
                    if rax == 0 then c == Running(u.(rip := skip), m)
                    else
                      && (!Mapped(m, d, 8) ==> c == Fault)
                      && (WordAt(m, d, rcx) ==>
                            c == Running(u.(reg := u.reg[1 := rcx], rip := if rcx == 0 then skip else next), m)))
  {
    hide WordAt, Mapped, Load64, Loaded;
    var t1 := t.(reg := t.reg[6 := rsi]);
    var t2 := t1.(reg := t1.reg[0 := rax]);
    LoadOutcome(t, m, RSI, RAX, 0x98, rsi);
    LoadOutcome(t1, m, RAX, RAX, 0xC0, rax);
    LoadOutcome(t2, m, RCX, RAX, 0x90, rcx);
    FaultLoads(RAX, RAX, 0xC0);
  }
}
