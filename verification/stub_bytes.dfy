/** Import stubs as bytes: which bytes the search takes for a stub, and what the slot that they name ends up holding. */
module StubBytes {

  import opened Options
  import opened ByteImage
  import opened ElfSegments
  import opened ElfRelocation
  import opened ImportScan
  import opened LoaderPipeline
  import RelocationBytes
  import X86Code

  type Int32 = X86Code.Int32

  /** A signed number in four bytes, lowest first. */
  function SignedBytes(x: Int32): seq<Byte> { X86Code.Disp32(x) }

  /** jmp [rip+rel]; push index; jmp, up to the last opcode. */
  function StubCode(rel: Int32, index: Int32): (s: seq<Byte>)
    ensures |s| == 12
  {
    [0xFF, 0x25] + SignedBytes(rel) + [0x68] + SignedBytes(index) + [0xE9]
  }

  /** Where an import goes: to its native function, if there is one, else to 0x10000000000 + index. */
  function Goal(native: int -> Option<Word64>, index: int): Word64 {
    match native(index)
    case Some(f) => f
    case None => (0x100_0000_0000 + index) % 0x1_0000_0000_0000_0000
  }

  lemma StubParts(rel: Int32, index: Int32)
    ensures var s := StubCode(rel, index);
            s[0] == 0xFF && s[1] == 0x25 && s[2..6] == SignedBytes(rel) && s[6] == 0x68 &&
            s[7..11] == SignedBytes(index) && s[11] == 0xE9
  {
  }

  lemma ReadsSigned(m: seq<Byte>, at: nat, x: Int32)
    requires at + 4 <= |m| && m[at..at + 4] == SignedBytes(x)
    ensures Int32At(m, at) == x
  {
    RelocationBytes.FourBytes();
    FromToBytes(x % 0x1_0000_0000, 4);
  }

  /** The search takes those bytes for a stub that goes through the slot rel bytes past the six of its jump. */
  lemma ReadsStub(m: seq<Byte>, i: nat, rel: Int32, index: Int32, p: Process)
    requires i + 16 <= |m| && m[i..i + 12] == StubCode(rel, index)
    ensures MatchAt(m, i) && StubAt(m, i, p) == Stub(i + 6 + rel, Goal(p.native, index))
  {
    hide StubCode, SignedBytes, Int32At;
    StubParts(rel, index);
    var s := m[i..i + 12];
    assert m[i] == s[0] && m[i + 1] == s[1] && m[i + 6] == s[6] && m[i + 11] == s[11];
    RelocationBytes.SliceOfSlice(m, i, i + 12, 2, 6);
    RelocationBytes.SliceOfSlice(m, i, i + 12, 7, 11);
    ReadsSigned(m, i + 2, rel);
    ReadsSigned(m, i + 7, index);
  }

  /** Bytes that are no stub: any of the four opcode bytes differs. */
  lemma OtherBytes(m: seq<Byte>, i: nat)
    requires i + 16 <= |m|
    ensures MatchAt(m, i) <==> m[i] == 255 && m[i + 1] == 37 && m[i + 6] == 104 && m[i + 11] == 233
  {
  }

  lemma {:induction false} StubOrigin(m: seq<Byte>, i: nat, size: nat, p: Process, k: nat) returns (j: nat)
    requires size <= |m| && k < |StubsFrom(m, i, size, p)|
    ensures j + 16 < size && MatchAt(m, j) && StubsFrom(m, i, size, p)[k] == StubAt(m, j, p)
    decreases size - i
  {
    hide StubAt, MatchAt;
    if MatchAt(m, i) {
      if k == 0 {
        j := i;
      } else {
        j := StubOrigin(m, i + 1, size, p, k - 1);
      }
    } else {
      j := StubOrigin(m, i + 1, size, p, k);
    }
  }

  /** Every stub that goes through the slot wants the value there. */
  ghost predicate AllWant(m: seq<Byte>, size: nat, p: Process, slot: int, value: Word64)
    requires size <= |m|
  {
    forall i: nat | i + 16 < size && MatchAt(m, i) :: Wants(StubAt(m, i, p), slot, value)
  }

  predicate Wants(s: Stub, slot: int, value: Word64) {
    s.slot == slot ==> s.target == value
  }

  /** A slot is left alone when it holds one of the first 0x10000 addresses of the hook region. */
  predicate Left(v: Word64) { 0x100_0000_0000 <= v < 0x100_0001_0000 }

  /** From a stub's bytes to its slot's: it holds the import's goal, lowest byte first, unless it was hooked before. */
  lemma StubBound(m: seq<Byte>, size: nat, p: Process, i: nat, rel: Int32, index: Int32)
    requires 32 <= size <= |m| && WellFormed(m, size, p) && i + 16 < size
    requires m[i..i + 12] == StubCode(rel, index) && p.writable(i + 6 + rel)
    requires AllWant(m, size, p, i + 6 + rel, Goal(p.native, index))
    ensures var r := Resolved(m, size, p);
            var at := i + 6 + rel;
            r.Some? && SlotIn(m, at) &&
            r.value[at..at + 8] ==
              if Left(Read64(m, at)) then m[at..at + 8] else ToBytes(Goal(p.native, index), 8)
  {
    hide StubCode, MatchAt, StubAt, WellFormed, Scan, StubsFrom, Read64, Goal;
    var at := i + 6 + rel;
    ReadsStub(m, i, rel, index, p);
    var k := StubListed(m, 0, i, size, p);
    forall j | 0 <= j < |StubsFrom(m, 0, size, p)| && StubsFrom(m, 0, size, p)[j].slot == at
      ensures StubsFrom(m, 0, size, p)[j].target == Goal(p.native, index)
    {
      var origin := StubOrigin(m, 0, size, p, j);
      assert Wants(StubAt(m, origin, p), at, Goal(p.native, index));
    }
    ImportBound(m, size, p, k);
    RelocationBytes.SlotBytes(Resolved(m, size, p).value, at);
    RelocationBytes.SlotBytes(m, at);
  }

  /** The same for a whole load: a stub in code that relocation spares is bound in the loaded image, whether or not the
      program has a jump table, unless the jump table has hooked its slot. */
  lemma LoadedBinds(s: Setup, size: nat, i: nat, rel: Int32, index: Int32)
    requires s.program.Fits(size) && size <= TWO64 && s.program.Disjoint() && CodeClear(s, Copied(s, size))
    requires var scan := ScanSize(s.program.phdrs, 0, size);
             32 <= scan <= size && i + 16 < scan &&
             Copied(s, size)[i..i + 12] == StubCode(rel, index) && s.process.writable(i + 6 + rel)
    requires var r := Relocated(s, Copied(s, size));
             var scan := ScanSize(s.program.phdrs, 0, size);
             r.Some? ==> WellFormed(r.value, scan, s.process) &&
                         AllWant(r.value, scan, s.process, i + 6 + rel, Goal(s.process.native, index))
    ensures var n, r := Relocated(s, Copied(s, size)), Loaded(s, size);
            var at := i + 6 + rel;
            n.Some? && r.Some? && SlotIn(n.value, at) &&
            r.value[at..at + 8] ==
              if Left(Read64(n.value, at)) then n.value[at..at + 8] else ToBytes(Goal(s.process.native, index), 8)
  {
    hide Relocated, Copied, StubCode, CodeClear, WellFormed, AllWant, Resolved, Read64, Goal, ScanSize;
    var m := Copied(s, size);
    CodeRelocated(s, m);
    var n, scan := Relocated(s, m).value, ScanSize(s.program.phdrs, 0, size);
    assert n[i..i + 12] == m[i..i + 12];
    StubBound(n, scan, s.process, i, rel, index);
  }
}
