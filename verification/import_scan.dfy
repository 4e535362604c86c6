/** The linker's scan for import stubs, and the slots that it hooks. */
module ImportScan {

  import opened Options
  import opened ByteImage
  import opened ElfRelocation

  /** What the process decides: the native functions, and the slots whose page can be made writable. */
  datatype Process = Process(native: int -> Option<Word64>, writable: int -> bool)

  /** jmp [rip+rel32]; push imm32; jmp */
  predicate MatchAt(m: seq<Byte>, i: nat)
    requires i + 16 <= |m|
  {
    m[i] == 0xFF && m[i + 1] == 0x25 && m[i + 6] == 0x68 && m[i + 11] == 0xE9
  }

  function Int32At(m: seq<Byte>, at: nat): int
    requires at + 4 <= |m|
  {
    AsInt32(FromBytes(m[at..at + 4]))
  }

  datatype Stub = Stub(slot: int, target: Word64)

  /** The slot that a stub jumps through, and where its pushed index should go. */
  function StubAt(m: seq<Byte>, i: nat, p: Process): Stub
    requires i + 16 <= |m|
  {
    Stub(i + 6 + Int32At(m, i + 2), Target(p.native, Int32At(m, i + 7)))
  }

  /** The value that marks a slot as hooked already. */
  predicate Hooked(v: Word64) {
    HOOKS <= v < HOOKS + 0x1_0000
  }

  function Patched(m: seq<Byte>, s: Stub, p: Process): (r: seq<Byte>)
    requires SlotIn(m, s.slot)
    ensures |r| == |m|
  {
    if Hooked(Read64(m, s.slot)) || !p.writable(s.slot) then m else Write64(m, s.slot, s.target)
  }

  /** The scan from position i on; None when a stub's slot is outside the image. */
  function Scan(m: seq<Byte>, i: nat, size: nat, p: Process): (r: Option<seq<Byte>>)
    requires size <= |m|
    ensures r.Some? ==> |r.value| == |m|
    decreases size - i
  {
    if i + 16 >= size then Some(m)
    else if !MatchAt(m, i) then Scan(m, i + 1, size, p)
    else
      var s := StubAt(m, i, p);
      if !SlotIn(m, s.slot) then None
      else if Hooked(Read64(m, s.slot)) then Scan(m, i + 1, size, p)
      else Scan(Patched(m, s, p), i + 16, size, p)
  }

  function Resolved(m: seq<Byte>, size: nat, p: Process): Option<seq<Byte>>
    requires size <= |m|
  {
    if size < 32 then Some(m) else Scan(m, 0, size, p)
  }

  method PatchSlot(img: array<Byte>, s: Stub, p: Process) returns (patched: bool)
    requires SlotIn(img[..], s.slot) && !Hooked(Read64(img[..], s.slot))
    modifies img
    ensures img[..] == Patched(old(img[..]), s, p) && patched == p.writable(s.slot)
  {
    if p.writable(s.slot) {
      Store64(img, s.slot, s.target);
      return true;
    }
    return false;
  }

  method Matches(img: array<Byte>, i: nat) returns (found: bool)
    requires i + 16 <= img.Length
    ensures found == MatchAt(img[..], i)
  {
    var pattern := [0xFF, 0x25, -1, -1, -1, -1, 0x68, -1, -1, -1, -1, 0xE9];
    for j := 0 to |pattern|
      invariant forall k | 0 <= k < j :: pattern[k] == -1 || img[i + k] == pattern[k]
    {
      if pattern[j] != -1 && img[i + j] != pattern[j] {
        return false;
      }
    }
    assert img[i + 0] == pattern[0] && img[i + 1] == pattern[1] && img[i + 6] == pattern[6] &&
           img[i + 11] == pattern[11];
    return true;
  }

  method ResolveImports(img: array<Byte>, size: nat, p: Process) returns (ok: bool)
    requires size <= img.Length
    modifies img
    ensures var result := Resolved(old(img[..]), size, p);
            ok == result.Some? && (ok ==> img[..] == result.value)
  {
    hide StubAt, MatchAt, Read64, Patched;
    if size < 32 {
      return true;
    }
    var i := 0;
    while i < size - 16
      invariant Scan(old(img[..]), 0, size, p) == Scan(img[..], i, size, p)
      decreases size - i
    {
      var found := Matches(img, i);
      if found {
        var s := StubAt(img[..], i, p);
        if !(0 <= s.slot && s.slot + 8 <= img.Length) {
          return false;
        }
        if Hooked(Read64(img[..], s.slot)) {
          i := i + 1;
          continue;
        }
        var patched := PatchSlot(img, s, p);
        i := i + 15;
      }
      i := i + 1;
    }
    return true;
  }

  // ---- After the relocation table's hooks ----

  /** Every stub's slot holds what the stub's index asks for. */
  ghost predicate StubsAgree(m: seq<Byte>, size: nat, p: Process)
    requires size <= |m|
  {
    forall i: nat | i + 16 < size && MatchAt(m, i) :: Agrees(m, StubAt(m, i, p))
  }

  predicate Agrees(m: seq<Byte>, s: Stub) {
    SlotIn(m, s.slot) && Read64(m, s.slot) == s.target
  }

  /** Where the stubs already agree with their slots, the scan changes nothing. */
  lemma {:induction false} ScanAgrees(m: seq<Byte>, i: nat, size: nat, p: Process)
    requires size <= |m| && StubsAgree(m, size, p)
    ensures Scan(m, i, size, p) == Some(m)
    decreases size - i
  {
    hide StubAt, MatchAt, Read64, Write64;
    if i + 16 < size {
      if !MatchAt(m, i) {
        ScanAgrees(m, i + 1, size, p);
      } else {
        var s := StubAt(m, i, p);
        assert Agrees(m, s);
        WriteSame(m, s.slot);
        ScanAgrees(m, i + 1, size, p);
        ScanAgrees(m, i + 16, size, p);
      }
    }
  }

  /** Searching m without patching it, from position i on, comes to position j. */
  predicate ComesTo(m: seq<Byte>, i: nat, j: nat, size: nat, p: Process)
    requires size <= |m|
    decreases size - i
  {
    i + 16 < size && (i == j || ComesTo(m, Onwards(m, i, p), j, size, p))
  }

  /** A stub that would be patched is skipped as a whole. */
  function Onwards(m: seq<Byte>, i: nat, p: Process): (j: nat)
    requires i + 16 <= |m|
    ensures j == i + 1 || j == i + 16
  {
    var at := StubAt(m, i, p).slot;
    if MatchAt(m, i) && SlotIn(m, at) && !Hooked(Read64(m, at)) then i + 16 else i + 1
  }

  /** There it finds a stub. */
  predicate Finds(m: seq<Byte>, i: nat, j: nat, size: nat, p: Process)
    requires size <= |m|
  {
    j + 16 < size && ComesTo(m, i, j, size, p) && MatchAt(m, j)
  }

  /** The same for the stubs that the search finds. */
  lemma {:induction false} ScanAgreesFound(m: seq<Byte>, i: nat, size: nat, p: Process)
    requires size <= |m|
    requires forall j: nat | Finds(m, i, j, size, p) :: Agrees(m, StubAt(m, j, p))
    ensures Scan(m, i, size, p) == Some(m)
    decreases size - i
  {
    hide StubAt, MatchAt, Read64, Write64;
    if i + 16 < size {
      assert ComesTo(m, i, i, size, p);
      forall j: nat | Finds(m, Onwards(m, i, p), j, size, p)
        ensures Agrees(m, StubAt(m, j, p))
      {
        assert Finds(m, i, j, size, p);
      }
      ScanAgreesFound(m, Onwards(m, i, p), size, p);
      if MatchAt(m, i) {
        assert Finds(m, i, i, size, p);
        WriteSame(m, StubAt(m, i, p).slot);
      }
    }
  }

  // ---- Stubs in order ----

  /** Stubs never start within 16 bytes of each other. */
  ghost predicate Spaced(m: seq<Byte>, size: nat)
    requires size <= |m|
  {
    forall i: nat, j: nat | i < j && j + 16 < size && MatchAt(m, i) && MatchAt(m, j) :: i + 16 <= j
  }

  /** The stubs from position i on. */
  function StubsFrom(m: seq<Byte>, i: nat, size: nat, p: Process): seq<Stub>
    requires size <= |m|
    decreases size - i
  {
    if i + 16 >= size then []
    else if MatchAt(m, i) then [StubAt(m, i, p)] + StubsFrom(m, i + 1, size, p)
    else StubsFrom(m, i + 1, size, p)
  }

  predicate SlotsIn(m: seq<Byte>, stubs: seq<Stub>) {
    forall k | 0 <= k < |stubs| :: SlotIn(m, stubs[k].slot)
  }

  /** The slots are in the image, past the scanned code. */
  predicate SlotsOutside(m: seq<Byte>, size: nat, stubs: seq<Stub>) {
    forall k | 0 <= k < |stubs| :: SlotIn(m, stubs[k].slot) && size <= stubs[k].slot
  }

  function PatchAll(m: seq<Byte>, stubs: seq<Stub>, p: Process): (r: seq<Byte>)
    requires SlotsIn(m, stubs)
    ensures |r| == |m|
    decreases |stubs|
  {
    if |stubs| == 0 then m
    else
      assert SlotIn(m, stubs[0].slot);
      PatchAll(Patched(m, stubs[0], p), stubs[1..], p)
  }

  predicate SameCode(m: seq<Byte>, n: seq<Byte>, size: nat) {
    size <= |m| == |n| && m[..size] == n[..size]
  }

  lemma SameAt(m: seq<Byte>, n: seq<Byte>, i: nat, size: nat, p: Process)
    requires SameCode(m, n, size) && i + 16 < size
    ensures MatchAt(m, i) == MatchAt(n, i) && StubAt(m, i, p) == StubAt(n, i, p)
  {
    assert forall k | 0 <= k < size :: m[..size][k] == m[k] && n[..size][k] == n[k];
    assert m[i + 2..i + 6] == m[..size][i + 2..i + 6] == n[i + 2..i + 6];
    assert m[i + 7..i + 11] == m[..size][i + 7..i + 11] == n[i + 7..i + 11];
  }

  lemma SameInts(m: seq<Byte>, n: seq<Byte>, i: nat, size: nat)
    requires SameCode(m, n, size) && i + 16 < size
    ensures Int32At(m, i + 2) == Int32At(n, i + 2) && Int32At(m, i + 7) == Int32At(n, i + 7)
  {
    assert m[i + 2..i + 6] == m[..size][i + 2..i + 6] == n[i + 2..i + 6];
    assert m[i + 7..i + 11] == m[..size][i + 7..i + 11] == n[i + 7..i + 11];
  }

  lemma PatchedCode(m: seq<Byte>, s: Stub, size: nat, p: Process)
    requires SlotIn(m, s.slot) && size <= s.slot
    ensures SameCode(m, Patched(m, s, p), size)
  {
    assert m[..size] == Patched(m, s, p)[..size];
  }

  /** No stub starts right after another, so skipping its 16 bytes skips no stub. */
  lemma {:induction false} SkipNothing(m: seq<Byte>, start: nat, i: nat, size: nat, p: Process)
    requires size <= |m| && Spaced(m, size) && start + 16 < size && MatchAt(m, start) && start < i <= start + 16
    ensures StubsFrom(m, i, size, p) == StubsFrom(m, start + 16, size, p)
    decreases start + 16 - i
  {
    hide StubAt, MatchAt;
    if i < start + 16 {
      SkipNothing(m, start, i + 1, size, p);
    }
  }

  // ---- Slots among the scanned bytes ----

  /** No stub's slot contains byte b. */
  predicate OffSlots(stubs: seq<Stub>, b: int) {
    forall k | 0 <= k < |stubs| :: Spares(stubs[k], b)
  }

  /** Whatever the slots come to hold, position i remains what it is: a stub whose bytes are in no slot, or no stub,
      because some byte in no slot contradicts the pattern. */
  predicate Robust(m: seq<Byte>, i: nat, stubs: seq<Stub>)
    requires i + 16 <= |m|
  {
    if MatchAt(m, i) then forall b | i <= b < i + 12 :: OffSlots(stubs, b)
    else
      (m[i] != 0xFF && OffSlots(stubs, i)) || (m[i + 1] != 0x25 && OffSlots(stubs, i + 1)) ||
      (m[i + 6] != 0x68 && OffSlots(stubs, i + 6)) || (m[i + 11] != 0xE9 && OffSlots(stubs, i + 11))
  }

  /** Stubs are spaced, their slots are in the image, and patching the slots neither makes nor breaks a stub. */
  ghost predicate WellPlaced(m: seq<Byte>, size: nat, p: Process)
    requires size <= |m|
  {
    var stubs := StubsFrom(m, 0, size, p);
    Spaced(m, size) && SlotsIn(m, stubs) && forall i: nat | i + 16 < size :: Robust(m, i, stubs)
  }

  /** n is m but for the slots. */
  ghost predicate OnlySlots(m: seq<Byte>, n: seq<Byte>, stubs: seq<Stub>) {
    |n| == |m| && forall b | 0 <= b < |m| && OffSlots(stubs, b) :: n[b] == m[b]
  }

  lemma RobustStays(m: seq<Byte>, n: seq<Byte>, i: nat, stubs: seq<Stub>, p: Process)
    requires i + 16 <= |m| && Robust(m, i, stubs) && OnlySlots(m, n, stubs)
    ensures MatchAt(n, i) == MatchAt(m, i) && (MatchAt(m, i) ==> StubAt(n, i, p) == StubAt(m, i, p))
  {
    hide OffSlots;
    if MatchAt(m, i) {
      assert forall b | i <= b < i + 12 :: OffSlots(stubs, b) && n[b] == m[b];
      assert m[i + 2..i + 6] == n[i + 2..i + 6];
      assert m[i + 7..i + 11] == n[i + 7..i + 11];
    }
  }

  lemma {:induction false} StubListed(m: seq<Byte>, start: nat, i: nat, size: nat, p: Process) returns (k: nat)
    requires size <= |m| && start <= i && i + 16 < size && MatchAt(m, i)
    ensures k < |StubsFrom(m, start, size, p)| && StubsFrom(m, start, size, p)[k] == StubAt(m, i, p)
    decreases i - start
  {
    hide StubAt, MatchAt;
    if start == i {
      k := 0;
    } else {
      k := StubListed(m, start + 1, i, size, p);
      if MatchAt(m, start) {
        k := k + 1;
      }
    }
  }

  /** Patching a stub of m changes only slots. */
  lemma PatchedSlots(m: seq<Byte>, n: seq<Byte>, stubs: seq<Stub>, k: nat, p: Process)
    requires OnlySlots(m, n, stubs) && k < |stubs| && SlotIn(m, stubs[k].slot)
    ensures OnlySlots(m, Patched(n, stubs[k], p), stubs)
  {
    hide Read64, Hooked;
    forall b | 0 <= b < |m| && OffSlots(stubs, b)
      ensures Patched(n, stubs[k], p)[b] == m[b]
    {
      assert Spares(stubs[k], b);
    }
  }

  /** The scan of an image that is m but for the slots patches m's stubs one after another. */
  lemma {:induction false} ScanIsPatchAll(m: seq<Byte>, n: seq<Byte>, i: nat, size: nat, p: Process)
    requires size <= |m| && WellPlaced(m, size, p) && OnlySlots(m, n, StubsFrom(m, 0, size, p))
    requires SlotsIn(n, StubsFrom(m, i, size, p))
    ensures Scan(n, i, size, p) == Some(PatchAll(n, StubsFrom(m, i, size, p), p))
    decreases size - i
  {
    hide StubAt, MatchAt, Read64, Patched, WellPlaced, OnlySlots, Hooked;
    SameLength(m, n, StubsFrom(m, 0, size, p));
    if i + 16 < size {
      SameStubAt(m, n, i, size, p);
      if !MatchAt(m, i) {
        ScanIsPatchAll(m, n, i + 1, size, p);
      } else {
        ScanStub(m, n, i, size, p);
      }
    }
  }

  lemma SameLength(m: seq<Byte>, n: seq<Byte>, stubs: seq<Stub>)
    requires OnlySlots(m, n, stubs)
    ensures |m| == |n|
  {
  }

  lemma SameStubAt(m: seq<Byte>, n: seq<Byte>, i: nat, size: nat, p: Process)
    requires size <= |m| && WellPlaced(m, size, p) && OnlySlots(m, n, StubsFrom(m, 0, size, p)) && i + 16 < size
    ensures |m| == |n| && MatchAt(n, i) == MatchAt(m, i) && (MatchAt(m, i) ==> StubAt(n, i, p) == StubAt(m, i, p))
  {
    hide OnlySlots, StubAt, StubsFrom;
    SameLength(m, n, StubsFrom(m, 0, size, p));
    RobustStays(m, n, i, StubsFrom(m, 0, size, p), p);
  }

  lemma {:induction false} ScanStub(m: seq<Byte>, n: seq<Byte>, i: nat, size: nat, p: Process)
    requires size <= |m| && WellPlaced(m, size, p) && OnlySlots(m, n, StubsFrom(m, 0, size, p))
    requires i + 16 < size && MatchAt(m, i) && SlotsIn(n, StubsFrom(m, i, size, p))
    ensures Scan(n, i, size, p) == Some(PatchAll(n, StubsFrom(m, i, size, p), p))
    decreases size - i, 0
  {
    hide StubAt, MatchAt, Read64, Write64, WellPlaced, OnlySlots, Hooked;
    var s := StubAt(m, i, p);
    var stubs, rest := StubsFrom(m, i, size, p), StubsFrom(m, i + 1, size, p);
    SameLength(m, n, StubsFrom(m, 0, size, p));
    SameStubAt(m, n, i, size, p);
    assert stubs[0] == s && stubs[1..] == rest;
    assert forall k | 0 <= k < |rest| :: rest[k] == stubs[k + 1];
    if Hooked(Read64(n, s.slot)) {
      ScanIsPatchAll(m, n, i + 1, size, p);
    } else {
      var k := StubListed(m, 0, i, size, p);
      PatchedSlots(m, n, StubsFrom(m, 0, size, p), k, p);
      assert Spaced(m, size) by { PlacedSpaced(m, size, p); }
      SkipNothing(m, i, i + 1, size, p);
      ScanIsPatchAll(m, Patched(n, s, p), i + 16, size, p);
    }
  }

  lemma PlacedSpaced(m: seq<Byte>, size: nat, p: Process)
    requires size <= |m| && WellPlaced(m, size, p)
    ensures Spaced(m, size)
  {
  }

  /** Slots past the scanned bytes are always well placed. */
  lemma PastCodePlaced(m: seq<Byte>, size: nat, p: Process)
    requires size <= |m| && Spaced(m, size) && SlotsOutside(m, size, StubsFrom(m, 0, size, p))
    ensures WellPlaced(m, size, p)
  {
    hide StubsFrom, StubAt, Spaced;
    var stubs := StubsFrom(m, 0, size, p);
    assert forall b | 0 <= b < size :: OffSlots(stubs, b);
  }

  // ---- What ends up in a slot ----

  /** Every stub's slot is the given one or apart from it. */
  predicate EqualOrApart(stubs: seq<Stub>, at: int) {
    forall k | 0 <= k < |stubs| :: stubs[k].slot == at || Apart(stubs[k].slot, at)
  }

  /** The value of a slot after the stubs that use it, in order. */
  function SlotAfter(v: Word64, stubs: seq<Stub>, at: int, writable: bool): Word64
    decreases |stubs|
  {
    if |stubs| == 0 then v
    else if stubs[0].slot != at || Hooked(v) || !writable then SlotAfter(v, stubs[1..], at, writable)
    else SlotAfter(stubs[0].target, stubs[1..], at, writable)
  }

  lemma {:induction false} SlotHolds(m: seq<Byte>, stubs: seq<Stub>, p: Process, at: int)
    requires SlotsIn(m, stubs) && SlotIn(m, at) && EqualOrApart(stubs, at)
    ensures Read64(PatchAll(m, stubs, p), at) == SlotAfter(Read64(m, at), stubs, at, p.writable(at))
    decreases |stubs|
  {
    hide Read64, Write64, Hooked;
    if |stubs| > 0 {
      var s := stubs[0];
      assert SlotIn(m, s.slot);
      assert s.slot == at || Apart(s.slot, at);
      SlotHolds(Patched(m, s, p), stubs[1..], p, at);
      if s.slot == at {
        ReadBack(m, at, s.target);
      } else {
        ReadElsewhere(m, s.slot, s.target, at);
      }
    }
  }

  lemma {:induction false} PatchFrame(m: seq<Byte>, stubs: seq<Stub>, p: Process, i: int)
    requires SlotsIn(m, stubs) && 0 <= i < |m|
    requires forall k | 0 <= k < |stubs| :: !(stubs[k].slot <= i < stubs[k].slot + 8)
    ensures PatchAll(m, stubs, p)[i] == m[i]
    decreases |stubs|
  {
    if |stubs| > 0 {
      assert SlotIn(m, stubs[0].slot) && !(stubs[0].slot <= i < stubs[0].slot + 8);
      PatchFrame(Patched(m, stubs[0], p), stubs[1..], p, i);
    }
  }

  /** A hooked value stays. */
  lemma {:induction false} HookStays(v: Word64, stubs: seq<Stub>, at: int, writable: bool)
    requires Hooked(v)
    ensures SlotAfter(v, stubs, at, writable) == v
    decreases |stubs|
  {
    if |stubs| > 0 {
      HookStays(v, stubs[1..], at, writable);
    }
  }

  /** Unless it ends up hooked, a slot's value after the stubs does not depend on its value before,
      once some stub uses it. */
  lemma {:induction false} LastWins(v: Word64, w: Word64, stubs: seq<Stub>, at: int)
    requires !Hooked(w) && !Hooked(SlotAfter(v, stubs, at, true))
    ensures (forall k | 0 <= k < |stubs| :: stubs[k].slot != at) ==> SlotAfter(w, stubs, at, true) == w
    ensures (exists k | 0 <= k < |stubs| :: stubs[k].slot == at) ==>
            SlotAfter(w, stubs, at, true) == SlotAfter(v, stubs, at, true)
    decreases |stubs|
  {
    if |stubs| > 0 {
      var rest := stubs[1..];
      if Hooked(v) {
        HookStays(v, rest, at, true);
      } else if stubs[0].slot == at {
        if Hooked(stubs[0].target) {
          HookStays(stubs[0].target, rest, at, true);
        }
      } else {
        LastWins(v, w, rest, at);
        if k :| 0 <= k < |stubs| && stubs[k].slot == at {
          assert rest[k - 1] == stubs[k];
        }
      }
    }
  }

  /** Going over the same stubs a second time leaves the slot as the first time left it. */
  lemma SlotSettles(v: Word64, stubs: seq<Stub>, at: int, writable: bool)
    ensures SlotAfter(SlotAfter(v, stubs, at, writable), stubs, at, writable) == SlotAfter(v, stubs, at, writable)
  {
    var w := SlotAfter(v, stubs, at, writable);
    if Hooked(w) {
      HookStays(w, stubs, at, writable);
    } else if writable {
      LastWins(v, w, stubs, at);
    } else {
      NeverWritten(v, stubs, at);
    }
  }

  lemma {:induction false} NeverWritten(v: Word64, stubs: seq<Stub>, at: int)
    ensures SlotAfter(v, stubs, at, false) == v
    decreases |stubs|
  {
    if |stubs| > 0 {
      NeverWritten(v, stubs[1..], at);
    }
  }

  // ---- The whole scan ----

  /** Well placed, and each stub's slot is equal to or apart from every other's. */
  ghost predicate WellFormed(m: seq<Byte>, size: nat, p: Process)
    requires size <= |m|
  {
    var stubs := StubsFrom(m, 0, size, p);
    WellPlaced(m, size, p) && forall k | 0 <= k < |stubs| :: EqualOrApart(stubs, stubs[k].slot)
  }

  lemma ResolvedIsPatchAll(m: seq<Byte>, n: seq<Byte>, size: nat, p: Process)
    requires size <= |m| && WellFormed(m, size, p) && OnlySlots(m, n, StubsFrom(m, 0, size, p))
    ensures var stubs := StubsFrom(m, 0, size, p);
            |n| == |m| && SlotsIn(n, stubs) &&
            Resolved(n, size, p) == Some(if size < 32 then n else PatchAll(n, stubs, p))
  {
    hide StubsFrom, Spaced, Robust, EqualOrApart, Scan;
    SameLength(m, n, StubsFrom(m, 0, size, p));
    ScanIsPatchAll(m, n, 0, size, p);
  }

  lemma {:induction false} SameStubs(m: seq<Byte>, n: seq<Byte>, i: nat, size: nat, p: Process)
    requires size <= |m| && WellPlaced(m, size, p) && OnlySlots(m, n, StubsFrom(m, 0, size, p))
    ensures |n| == |m| && StubsFrom(n, i, size, p) == StubsFrom(m, i, size, p)
    decreases size - i
  {
    hide StubAt, MatchAt, WellPlaced, OnlySlots;
    SameLength(m, n, StubsFrom(m, 0, size, p));
    if i + 16 < size {
      SameStubAt(m, n, i, size, p);
      SameStubs(m, n, i + 1, size, p);
    }
  }

  /** Nothing but slots is changed, and the stubs are still those; slots past the code leave all of it as it was. */
  lemma CodeKept(m: seq<Byte>, size: nat, p: Process)
    requires size <= |m| && WellFormed(m, size, p)
    ensures var r := Resolved(m, size, p);
            var stubs := StubsFrom(m, 0, size, p);
            r.Some? && OnlySlots(m, r.value, stubs) && StubsFrom(r.value, 0, size, p) == stubs &&
            (SlotsOutside(m, size, stubs) ==> SameCode(m, r.value, size))
  {
    hide StubsFrom, WellPlaced, PatchAll, EqualOrApart;
    var stubs := StubsFrom(m, 0, size, p);
    assert OnlySlots(m, m, stubs);
    ResolvedIsPatchAll(m, m, size, p);
    var r := Resolved(m, size, p).value;
    forall b | 0 <= b < |m| && OffSlots(stubs, b)
      ensures r[b] == m[b]
    {
      if size >= 32 {
        PatchSpares(m, stubs, p, b);
      }
    }
    SameStubs(m, r, 0, size, p);
    if SlotsOutside(m, size, stubs) {
      assert forall b | 0 <= b < size :: OffSlots(stubs, b);
      assert m[..size] == r[..size];
    }
  }

  lemma PatchSpares(m: seq<Byte>, stubs: seq<Stub>, p: Process, b: int)
    requires SlotsIn(m, stubs) && 0 <= b < |m| && OffSlots(stubs, b)
    ensures PatchAll(m, stubs, p)[b] == m[b]
  {
    assert forall k | 0 <= k < |stubs| :: Spares(stubs[k], b) && !(stubs[k].slot <= b < stubs[k].slot + 8);
    PatchFrame(m, stubs, p, b);
  }

  lemma {:induction false} OnlyTarget(v: Word64, t: Word64, stubs: seq<Stub>, at: int)
    requires forall k | 0 <= k < |stubs| && stubs[k].slot == at :: stubs[k].target == t
    requires v == t || (exists k | 0 <= k < |stubs| :: stubs[k].slot == at)
    ensures SlotAfter(v, stubs, at, true) == if Hooked(v) then v else t
    decreases |stubs|
  {
    if Hooked(v) {
      HookStays(v, stubs, at, true);
    } else if |stubs| > 0 {
      var rest := stubs[1..];
      if stubs[0].slot == at {
        OnlyTarget(t, t, rest, at);
      } else {
        if k :| 0 <= k < |stubs| && stubs[k].slot == at {
          assert rest[k - 1] == stubs[k];
        }
        OnlyTarget(v, t, rest, at);
      }
    }
  }

  /** A writable slot whose stubs agree ends up with their target, unless it was hooked before. */
  lemma ImportBound(m: seq<Byte>, size: nat, p: Process, k: nat)
    requires 32 <= size <= |m| && WellFormed(m, size, p)
    requires var stubs := StubsFrom(m, 0, size, p);
             k < |stubs| && p.writable(stubs[k].slot) &&
             forall j | 0 <= j < |stubs| && stubs[j].slot == stubs[k].slot :: stubs[j].target == stubs[k].target
    ensures var s := StubsFrom(m, 0, size, p)[k];
            var r := Resolved(m, size, p);
            r.Some? && SlotIn(m, s.slot) &&
            Read64(r.value, s.slot) == if Hooked(Read64(m, s.slot)) then Read64(m, s.slot) else s.target
  {
    hide StubsFrom, WellPlaced, Read64, Hooked, SlotAfter, PatchAll;
    var stubs := StubsFrom(m, 0, size, p);
    assert OnlySlots(m, m, stubs);
    ResolvedIsPatchAll(m, m, size, p);
    var at := stubs[k].slot;
    SlotHolds(m, stubs, p, at);
    OnlyTarget(Read64(m, at), stubs[k].target, stubs, at);
  }

  /** Patching the same stubs again changes nothing, even where stubs that share a slot disagree. */
  lemma PatchAgain(m: seq<Byte>, stubs: seq<Stub>, p: Process)
    requires SlotsIn(m, stubs) && forall k | 0 <= k < |stubs| :: EqualOrApart(stubs, stubs[k].slot)
    ensures SlotsIn(PatchAll(m, stubs, p), stubs)
    ensures PatchAll(PatchAll(m, stubs, p), stubs, p) == PatchAll(m, stubs, p)
  {
    hide PatchAll, Read64, SlotAfter, EqualOrApart;
    var once := PatchAll(m, stubs, p);
    var twice := PatchAll(once, stubs, p);
    forall i | 0 <= i < |m|
      ensures twice[i] == once[i]
    {
      if k :| 0 <= k < |stubs| && stubs[k].slot <= i < stubs[k].slot + 8 {
        var at := stubs[k].slot;
        SlotHolds(m, stubs, p, at);
        SlotHolds(once, stubs, p, at);
        SlotSettles(Read64(m, at), stubs, at, p.writable(at));
        SameSlotBytes(twice, once, at, i);
      } else {
        PatchFrame(once, stubs, p, i);
      }
    }
  }

  /** Resolving a second time changes nothing. */
  lemma ResolvedTwice(m: seq<Byte>, size: nat, p: Process)
    requires size <= |m| && WellFormed(m, size, p)
    ensures var r := Resolved(m, size, p);
            r.Some? && Resolved(r.value, size, p) == r
  {
    hide StubsFrom, WellPlaced, PatchAll, Scan, EqualOrApart, OffSlots;
    var stubs := StubsFrom(m, 0, size, p);
    assert OnlySlots(m, m, stubs);
    ResolvedIsPatchAll(m, m, size, p);
    CodeKept(m, size, p);
    ResolvedIsPatchAll(m, Resolved(m, size, p).value, size, p);
    PatchAgain(m, stubs, p);
  }

  // ---- Framing, however the stubs lie ----

  /** Every stub's slot is in the image, past the scanned code. */
  ghost predicate SlotsPast(m: seq<Byte>, size: nat, p: Process)
    requires size <= |m|
  {
    forall i: nat | i + 16 < size && MatchAt(m, i) :: PastCode(m, StubAt(m, i, p), size)
  }

  predicate PastCode(m: seq<Byte>, s: Stub, size: nat) {
    SlotIn(m, s.slot) && size <= s.slot
  }

  /** No stub's slot contains byte b. */
  ghost predicate StubsMiss(m: seq<Byte>, size: nat, p: Process, b: int)
    requires size <= |m|
  {
    forall i: nat | i + 16 < size && MatchAt(m, i) :: Spares(StubAt(m, i, p), b)
  }

  predicate Spares(s: Stub, b: int) {
    !(s.slot <= b < s.slot + 8)
  }

  /** What the stubs refer to is settled by the scanned code alone. */
  lemma StubsOfSameCode(m: seq<Byte>, n: seq<Byte>, size: nat, p: Process, b: int)
    requires SameCode(m, n, size)
    ensures SlotsPast(m, size, p) ==> SlotsPast(n, size, p)
    ensures StubsMiss(m, size, p, b) ==> StubsMiss(n, size, p, b)
  {
    hide MatchAt, StubAt, Spares;
    forall i: nat | i + 16 < size
      ensures MatchAt(m, i) == MatchAt(n, i) && StubAt(m, i, p) == StubAt(n, i, p)
    {
      SameAt(m, n, i, size, p);
    }
  }

  /** Every stub that the scan comes to has its slot in the image, and those that it patches lie outside [lo, hi). */
  predicate ScanClear(m: seq<Byte>, i: nat, size: nat, p: Process, lo: int, hi: int)
    requires size <= |m|
    decreases size - i
  {
    if i + 16 >= size then true
    else if !MatchAt(m, i) then ScanClear(m, i + 1, size, p, lo, hi)
    else
      var s := StubAt(m, i, p);
      SlotIn(m, s.slot) &&
      if Hooked(Read64(m, s.slot)) then ScanClear(m, i + 1, size, p, lo, hi)
      else SparesRange(s, lo, hi) && ScanClear(Patched(m, s, p), i + 16, size, p, lo, hi)
  }

  predicate SparesRange(s: Stub, lo: int, hi: int) {
    forall b | lo <= b < hi :: Spares(s, b)
  }

  /** The scan then finishes and keeps the range, wherever the stubs and the range lie. */
  lemma {:induction false} ScanKeeps(m: seq<Byte>, i: nat, size: nat, p: Process, lo: int, hi: int)
    requires size <= |m| && ScanClear(m, i, size, p, lo, hi)
    ensures var r := Scan(m, i, size, p);
            r.Some? && SameRange(m, r.value, lo, hi)
    decreases size - i
  {
    hide StubAt, MatchAt, Read64, Patched, SameRange;
    SameItself(m, lo, hi);
    if i + 16 < size {
      if !MatchAt(m, i) {
        ScanKeeps(m, i + 1, size, p, lo, hi);
      } else {
        var s := StubAt(m, i, p);
        if Hooked(Read64(m, s.slot)) {
          ScanKeeps(m, i + 1, size, p, lo, hi);
        } else {
          var n := Patched(m, s, p);
          PatchKeeps(m, s, p, lo, hi);
          ScanKeeps(n, i + 16, size, p, lo, hi);
          SameRangeTrans(m, n, Scan(n, i + 16, size, p).value, lo, hi);
        }
      }
    }
  }

  lemma PatchKeeps(m: seq<Byte>, s: Stub, p: Process, lo: int, hi: int)
    requires SlotIn(m, s.slot) && SparesRange(s, lo, hi)
    ensures SameRange(m, Patched(m, s, p), lo, hi)
  {
    forall i | lo <= i < hi && 0 <= i < |m|
      ensures m[i] == Patched(m, s, p)[i]
    {
      assert Spares(s, i);
    }
  }

  /** Stubs whose slots lie past the code and outside the range are of that kind. */
  lemma {:induction false} PastCodeClear(m: seq<Byte>, i: nat, size: nat, p: Process, lo: int, hi: int)
    requires size <= |m| && SlotsPast(m, size, p) && forall b | lo <= b < hi :: StubsMiss(m, size, p, b)
    ensures ScanClear(m, i, size, p, lo, hi)
    decreases size - i
  {
    hide StubAt, MatchAt, Read64, Patched, Hooked, SlotsPast, StubsMiss;
    if i + 16 < size {
      PastCodeClear(m, i + 1, size, p, lo, hi);
      if MatchAt(m, i) {
        var s := StubAt(m, i, p);
        StubPast(m, i, size, p, lo, hi);
        PastCodeClear(Patched(m, s, p), i + 16, size, p, lo, hi);
      }
    }
  }

  lemma StubPast(m: seq<Byte>, i: nat, size: nat, p: Process, lo: int, hi: int)
    requires size <= |m| && SlotsPast(m, size, p) && forall b | lo <= b < hi :: StubsMiss(m, size, p, b)
    requires i + 16 < size && MatchAt(m, i)
    ensures SlotIn(m, StubAt(m, i, p).slot) && SparesRange(StubAt(m, i, p), lo, hi)
    ensures var n := Patched(m, StubAt(m, i, p), p);
            SlotsPast(n, size, p) && forall b | lo <= b < hi :: StubsMiss(n, size, p, b)
  {
    hide StubAt, MatchAt, Read64, Spares;
    var s := StubAt(m, i, p);
    assert PastCode(m, s, size);
    var n := Patched(m, s, p);
    PatchedCode(m, s, size, p);
    StubsOfSameCode(m, n, size, p, 0);
    forall b | lo <= b < hi
      ensures Spares(s, b) && StubsMiss(n, size, p, b)
    {
      assert StubsMiss(m, size, p, b);
      StubsOfSameCode(m, n, size, p, b);
    }
  }
}
