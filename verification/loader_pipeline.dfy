/** The phases of loading together: copying, relocation, import hooks, the stub scan, the integrity check. */
module LoaderPipeline {

  import opened Options
  import opened ByteImage
  import opened ElfSegments
  import opened ElfRelocation
  import Rebasing
  import BruteForce
  import opened ImportScan

  /** The two relocation tables, as the dynamic section gives them; both are counted in DT_RELAENT units. */
  datatype Tables = Tables(rela: nat, relaSize: nat, jmprel: nat, jmprelSize: nat, entrySize: nat, symbols: bool)
  {
    function RelaCount(): nat
      requires entrySize > 0
    {
      relaSize / entrySize
    }

    /** Jump slots are hooked only when there is a symbol table. */
    function JmprelCount(): nat
      requires entrySize > 0
    {
      if symbols then jmprelSize / entrySize else 0
    }
  }

  const PT_DYNAMIC: nat := 2

  /** The program has a dynamic section, and so can be relocated. */
  predicate HasDynamic(phdrs: seq<Phdr>) {
    exists k | 0 <= k < |phdrs| :: phdrs[k].ptype == 2
  }

  /** Everything that loading depends on besides the image. */
  datatype Setup = Setup(program: Program, base: Word64, symbol: nat -> Option<Word64>, process: Process,
    tables: Option<Tables>)
  {
    /** A dynamic section with a usable DT_RELA table; with a dynamic section but no such table, the data is scanned
        for addresses instead. */
    predicate HasTables() { HasDynamic(program.phdrs) && tables.Some? && tables.value.entrySize > 0 }

    function Addr(): Rule { Addresses(base, symbol) }

    function Hook(): Rule { Hooks(process.native) }
  }

  /** The scan covers the segment at address 0, or the whole image when there is none. */
  function ScanSize(phdrs: seq<Phdr>, k: nat, size: nat): nat
    requires k <= |phdrs|
    decreases |phdrs| - k
  {
    if k == |phdrs| then size
    else if phdrs[k].IsLoad() && phdrs[k].vaddr == 0 then if phdrs[k].memsz > 0 then phdrs[k].memsz else size
    else ScanSize(phdrs, k + 1, size)
  }

  lemma {:induction false} ScanSizeInImage(p: Program, k: nat, size: nat)
    requires k <= |p.phdrs| && p.Fits(size)
    ensures ScanSize(p.phdrs, k, size) <= size
    decreases |p.phdrs| - k
  {
    if k < |p.phdrs| {
      ScanSizeInImage(p, k + 1, size);
    }
  }

  /** The search covers the first PT_LOAD, kind 1, at address 0, as far as it reaches in memory. */
  lemma {:induction false} ScanSizeIs(phdrs: seq<Phdr>, from: nat, size: nat, k: nat)
    requires from <= k < |phdrs| && phdrs[k].ptype == 1 && phdrs[k].vaddr == 0
    requires forall j | from <= j < k :: phdrs[j].ptype != 1 || phdrs[j].vaddr != 0
    ensures ScanSize(phdrs, from, size) == if phdrs[k].memsz > 0 then phdrs[k].memsz else size
    decreases k - from
  {
    if from < k {
      ScanSizeIs(phdrs, from + 1, size, k);
    }
  }

  /** It covers the whole image when there is none. */
  lemma {:induction false} ScanSizeIsAll(phdrs: seq<Phdr>, from: nat, size: nat)
    requires from <= |phdrs| && forall j | from <= j < |phdrs| :: phdrs[j].ptype != 1 || phdrs[j].vaddr != 0
    ensures ScanSize(phdrs, from, size) == size
    decreases |phdrs| - from
  {
    if from < |phdrs| {
      ScanSizeIsAll(phdrs, from + 1, size);
    }
  }

  // ---- The phases ----

  function Copied(s: Setup, size: nat): (m: seq<Byte>)
    requires s.program.Fits(size)
    ensures |m| == size
  {
    PlacedUpTo(Zeros(size), s.program, |s.program.phdrs|)
  }

  function Relocated(s: Setup, m: seq<Byte>): (r: Option<seq<Byte>>)
    requires s.program.Fits(|m|) && |m| <= TWO64
    ensures r.Some? ==> |r.value| == |m|
  {
    if s.HasTables() then
      var t := s.tables.value;
      var r := Pass(m, t.rela, t.RelaCount(), s.Addr());
      if r.Some? then Pass(r.value, t.jmprel, t.JmprelCount(), s.Hook()) else None
    else if !HasDynamic(s.program.phdrs) then Some(m)
    else
      var slots := BruteForce.Slots(s.program.phdrs, |s.program.phdrs|);
      BruteForce.SlotsInImage(s.program.phdrs, |s.program.phdrs|, m);
      Some(BruteForce.Fixed(m, slots, BruteForce.Rebase(s.program.phdrs, |m|, s.base)))
  }

  function Linked(s: Setup, m: seq<Byte>): (r: Option<seq<Byte>>)
    requires s.program.Fits(|m|)
    ensures r.Some? ==> |r.value| == |m|
  {
    ScanSizeInImage(s.program, 0, |m|);
    Resolved(m, ScanSize(s.program.phdrs, 0, |m|), s.process)
  }

  /** The image as the program will run in it. */
  function Loaded(s: Setup, size: nat): (r: Option<seq<Byte>>)
    requires s.program.Fits(size) && size <= TWO64
    ensures r.Some? ==> |r.value| == size
  {
    var r := Relocated(s, Copied(s, size));
    if r.Some? then Linked(s, r.value) else None
  }

  method TextSize(phdrs: seq<Phdr>, size: nat) returns (scan: nat)
    ensures scan == ScanSize(phdrs, 0, size)
  {
    var text := 0;
    var k := 0;
    while k < |phdrs|
      invariant k <= |phdrs| && text == 0 && ScanSize(phdrs, 0, size) == ScanSize(phdrs, k, size)
    {
      if phdrs[k].IsLoad() && phdrs[k].vaddr == 0 {
        text := phdrs[k].memsz;
        break;
      }
      k := k + 1;
    }
    scan := if text > 0 then text else size;
  }

  method FindDynamic(phdrs: seq<Phdr>) returns (found: bool)
    ensures found == HasDynamic(phdrs)
  {
    for k := 0 to |phdrs|
      invariant forall j | 0 <= j < k :: phdrs[j].ptype != PT_DYNAMIC
    {
      if phdrs[k].ptype == PT_DYNAMIC {
        return true;
      }
    }
    return false;
  }

  method Load(img: array<Byte>, s: Setup) returns (ok: bool)
    requires s.program.Fits(img.Length) && img.Length <= TWO64 && img[..] == Zeros(img.Length)
    modifies img
    ensures var r := Loaded(s, img.Length);
            ok == r.Some? && (ok ==> img[..] == r.value)
  {
    hide PlacedUpTo, Pass, Resolved, BruteForce.Fixed, ScanSize;
    CopySegments(img, s.program);
    var dynamic := FindDynamic(s.program.phdrs);
    if dynamic && s.tables.Some? && s.tables.value.entrySize > 0 {
      var t := s.tables.value;
      ok := RelocateRela(img, t.rela, t.relaSize, t.entrySize, s.base, s.symbol);
      if !ok {
        return;
      }
      ok := HookJumpSlots(img, t.jmprel, if t.symbols then t.jmprelSize else 0, t.entrySize, s.process.native);
      if !ok {
        return;
      }
    } else if dynamic {
      BruteForce.RelocateByScan(img, s.program.phdrs, s.base);
    }
    var scan := TextSize(s.program.phdrs, img.Length);
    ScanSizeInImage(s.program, 0, img.Length);
    ok := ResolveImports(img, scan, s.process);
  }

  // ---- Framing a pass by what the tables say beforehand ----

  /** No slot of the table reaches into [lo, hi). */
  ghost predicate SlotsClear(m: seq<Byte>, table: nat, n: nat, rule: Rule, lo: int, hi: int)
    requires table + 24 * n <= |m|
  {
    forall k: nat | k < n :: SlotClear(m, table, n, k, rule, lo, hi)
  }

  predicate SlotClear(m: seq<Byte>, table: nat, n: nat, k: nat, rule: Rule, lo: int, hi: int)
    requires table + 24 * n <= |m| && k < n
  {
    var e := EntryAt(m, table, k);
    rule.Value(k, e).Some? ==> e.offset + 8 <= lo || hi <= e.offset
  }

  /** A pass keeps every range that its slots are clear of. */
  lemma PassKeeps(m: seq<Byte>, table: nat, n: nat, rule: Rule, lo: int, hi: int)
    requires Regular(m, table, n, rule) && SlotsClear(m, table, n, rule, lo, hi)
    ensures var r := Pass(m, table, n, rule);
            r.Some? && SameRange(m, r.value, lo, hi)
  {
    hide Pass, EntryAt, Regular, Rule.Value;
    Rebasing.TableInside(m, table, n, rule);
    PassIsStores(m, table, n, n, rule);
    forall i | lo <= i < hi && 0 <= i < |m|
      ensures Pass(m, table, n, rule).value[i] == m[i]
    {
      forall k: nat | k < n
        ensures Rebasing.OffSlot(m, table, n, k, rule, i)
      {
        assert SlotClear(m, table, n, k, rule, lo, hi);
      }
      Rebasing.PassFrame(m, table, n, rule, i);
    }
  }

  lemma SameEntry(m: seq<Byte>, r: seq<Byte>, table: nat, n: nat, k: nat)
    requires SameRange(m, r, table, table + 24 * n) && table + 24 * n <= |m| && k < n
    ensures EntryAt(m, table, k) == EntryAt(r, table, k)
  {
    var at := table + 24 * k;
    assert m[at..at + 8] == r[at..at + 8];
    assert m[at + 8..at + 16] == r[at + 8..at + 16];
    assert m[at + 16..at + 24] == r[at + 16..at + 24];
  }

  /** A table whose bytes are kept says the same as before. */
  lemma SameTable(m: seq<Byte>, r: seq<Byte>, table: nat, n: nat, rule: Rule, lo: int, hi: int)
    requires Regular(m, table, n, rule) && SameRange(m, r, table, table + 24 * n)
    ensures Regular(r, table, n, rule)
    ensures SlotsClear(m, table, n, rule, lo, hi) ==> SlotsClear(r, table, n, rule, lo, hi)
  {
    hide EntryAt, Rule.Value;
    forall k: nat | k < n
      ensures EntryAt(m, table, k) == EntryAt(r, table, k)
    {
      SameEntry(m, r, table, n, k);
    }
    forall k: nat | k < n
      ensures RegularEntry(r, table, n, k, rule)
    {
      assert RegularEntry(m, table, n, k, rule);
    }
    if SlotsClear(m, table, n, rule, lo, hi) {
      forall k: nat | k < n
        ensures SlotClear(r, table, n, k, rule, lo, hi)
      {
        assert SlotClear(m, table, n, k, rule, lo, hi);
      }
    }
  }

  // ---- A program that keeps its code apart ----

  /** Both tables are regular, the first leaves the second alone, and no slot reaches [lo, hi);
      all of it read from the image as copied. */
  ghost predicate TablesClear(s: Setup, m: seq<Byte>, lo: int, hi: int)
    requires s.HasTables()
  {
    var t := s.tables.value;
    Regular(m, t.rela, t.RelaCount(), s.Addr()) && Regular(m, t.jmprel, t.JmprelCount(), s.Hook()) &&
    SlotsClear(m, t.rela, t.RelaCount(), s.Addr(), t.jmprel, t.jmprel + 24 * t.JmprelCount()) &&
    SlotsClear(m, t.rela, t.RelaCount(), s.Addr(), lo, hi) &&
    SlotsClear(m, t.jmprel, t.JmprelCount(), s.Hook(), lo, hi)
  }

  /** Both relocation phases keep the range. */
  lemma RelocationKeeps(s: Setup, m: seq<Byte>, lo: int, hi: int)
    requires s.program.Fits(|m|) && |m| <= TWO64 && s.HasTables() && TablesClear(s, m, lo, hi)
    ensures var r := Relocated(s, m);
            r.Some? && SameRange(m, r.value, lo, hi)
  {
    hide Pass, Regular, SlotsClear, SameRange, Program.Fits;
    var t := s.tables.value;
    PassKeeps(m, t.rela, t.RelaCount(), s.Addr(), lo, hi);
    PassKeeps(m, t.rela, t.RelaCount(), s.Addr(), t.jmprel, t.jmprel + 24 * t.JmprelCount());
    var r := Pass(m, t.rela, t.RelaCount(), s.Addr()).value;
    SameTable(m, r, t.jmprel, t.JmprelCount(), s.Hook(), lo, hi);
    PassKeeps(r, t.jmprel, t.JmprelCount(), s.Hook(), lo, hi);
    SameRangeTrans(m, r, Pass(r, t.jmprel, t.JmprelCount(), s.Hook()).value, lo, hi);
  }

  /** Without tables, relocation keeps every executable segment. */
  lemma AddressScanKeeps(s: Setup, m: seq<Byte>, k: nat)
    requires s.program.Fits(|m|) && |m| <= TWO64 && !s.HasTables() && s.program.Disjoint()
    requires k < |s.program.phdrs| && s.program.phdrs[k].IsLoad() && s.program.phdrs[k].Executable()
    ensures var r := Relocated(s, m);
            var h := s.program.phdrs[k];
            r.Some? && SameRange(m, r.value, h.vaddr, h.vaddr + h.Extent())
  {
    hide BruteForce.Fixed, BruteForce.Slots;
    var phdrs := s.program.phdrs;
    var slots := BruteForce.Slots(phdrs, |phdrs|);
    BruteForce.SlotsInImage(phdrs, |phdrs|, m);
    forall i | phdrs[k].vaddr <= i < phdrs[k].vaddr + phdrs[k].Extent() && i < |m|
      ensures BruteForce.Fixed(m, slots, BruteForce.Rebase(phdrs, |m|, s.base))[i] == m[i]
    {
      forall j | 0 <= j < |slots|
        ensures !(slots[j] <= i < slots[j] + 8)
      {
        var x := BruteForce.SlotOrigin(phdrs, |phdrs|, j);
      }
      BruteForce.FixedFrame(m, slots, BruteForce.Rebase(phdrs, |m|, s.base), i);
    }
  }

  /** Segment k is executable and wholly in the file. */
  predicate Checked(p: Program, k: nat) {
    k < |p.phdrs| && p.phdrs[k].IsLoad() && p.phdrs[k].Executable() && p.Source(k) + p.phdrs[k].filesz <= |p.file|
  }

  /** Searching the relocated image n for stubs patches no slot that reaches into segment k. */
  predicate SearchClear(s: Setup, n: seq<Byte>, k: nat)
    requires s.program.Fits(|n|) && k < |s.program.phdrs|
  {
    ScanSizeInImage(s.program, 0, |n|);
    var h := s.program.phdrs[k];
    var scan := ScanSize(s.program.phdrs, 0, |n|);
    scan < 32 || ScanClear(n, 0, scan, s.process, h.vaddr, h.vaddr + h.filesz)
  }

  /** Relocation keeps what the file says about segment k. */
  lemma SegmentRelocated(s: Setup, m: seq<Byte>, k: nat)
    requires s.program.Fits(|m|) && |m| <= TWO64 && s.program.Disjoint() && Checked(s.program, k)
    requires var h := s.program.phdrs[k];
             s.HasTables() ==> TablesClear(s, m, h.vaddr, h.vaddr + h.filesz)
    ensures var r := Relocated(s, m);
            var h := s.program.phdrs[k];
            r.Some? && SameRange(m, r.value, h.vaddr, h.vaddr + h.filesz)
  {
    hide Relocated, TablesClear;
    var h := s.program.phdrs[k];
    if s.HasTables() {
      RelocationKeeps(s, m, h.vaddr, h.vaddr + h.filesz);
    } else {
      AddressScanKeeps(s, m, k);
    }
  }

  lemma SegmentLinked(s: Setup, n: seq<Byte>, k: nat)
    requires s.program.Fits(|n|) && k < |s.program.phdrs| && SearchClear(s, n, k)
    ensures var r := Linked(s, n);
            var h := s.program.phdrs[k];
            r.Some? && SameRange(n, r.value, h.vaddr, h.vaddr + h.filesz)
  {
    hide ScanSize, Scan, ScanClear, SameRange;
    ScanSizeInImage(s.program, 0, |n|);
    var h := s.program.phdrs[k];
    var scan := ScanSize(s.program.phdrs, 0, |n|);
    SameItself(n, h.vaddr, h.vaddr + h.filesz);
    if scan >= 32 {
      ScanKeeps(n, 0, scan, s.process, h.vaddr, h.vaddr + h.filesz);
    }
  }

  /** Loading leaves every executable segment byte for byte as it is in the file, so that the integrity check finds no
      difference, as soon as no relocation or import slot reaches into the segment: wherever the segment lies, and
      whatever the stub search covers. */
  lemma CodeIntact(s: Setup, size: nat, k: nat)
    requires s.program.Fits(size) && size <= TWO64 && s.program.Disjoint() && Checked(s.program, k)
    requires var h := s.program.phdrs[k];
             s.HasTables() ==> TablesClear(s, Copied(s, size), h.vaddr, h.vaddr + h.filesz)
    requires var r := Relocated(s, Copied(s, size));
             r.Some? ==> SearchClear(s, r.value, k)
    ensures var r := Loaded(s, size);
            r.Some? && Differences(r.value, s.program, k, s.program.phdrs[k].filesz) == {} &&
            forall diff, first | Counted(r.value, s.program, k, s.program.phdrs[k].filesz, diff, first) :: diff == 0
  {
    hide Relocated, Linked, TablesClear, SearchClear, PlacedUpTo;
    var p, h := s.program, s.program.phdrs[k];
    var m := Copied(s, size);
    SegmentRelocated(s, m, k);
    var n := Relocated(s, m).value;
    SegmentLinked(s, n, k);
    var r := Linked(s, n).value;
    forall j: nat | j < h.filesz
      ensures !Differs(r, h.vaddr, p.file, p.Source(k), j)
    {
      SegmentImage(Zeros(size), p, |p.phdrs|, k, h.vaddr + j);
    }
  }

  // ---- Code that is searched at address 0: conditions on the file alone ----

  /** Relocation is clear of the code that is searched for stubs. */
  ghost predicate CodeClear(s: Setup, m: seq<Byte>) {
    var scan := ScanSize(s.program.phdrs, 0, |m|);
    if s.HasTables() then TablesClear(s, m, 0, scan)
    else HasDynamic(s.program.phdrs) ==> exists x | 0 <= x < |s.program.phdrs| :: IsText(s.program.phdrs[x], scan)
  }

  /** The executable segment at address 0, of the given size. */
  predicate IsText(h: Phdr, scan: nat) {
    h.IsLoad() && h.Executable() && h.vaddr == 0 && h.memsz == scan
  }

  /** The slots of the stubs lie past the searched code, and outside segment k. */
  ghost predicate StubsClear(s: Setup, m: seq<Byte>, k: nat)
    requires k < |s.program.phdrs| && s.program.Fits(|m|)
  {
    ScanSizeInImage(s.program, 0, |m|);
    var h := s.program.phdrs[k];
    var scan := ScanSize(s.program.phdrs, 0, |m|);
    SlotsPast(m, scan, s.process) && forall i | h.vaddr <= i < h.vaddr + h.filesz :: StubsMiss(m, scan, s.process, i)
  }

  /** Relocation keeps the searched code. */
  lemma CodeRelocated(s: Setup, m: seq<Byte>)
    requires s.program.Fits(|m|) && |m| <= TWO64 && s.program.Disjoint() && CodeClear(s, m)
    ensures var r := Relocated(s, m);
            r.Some? && SameRange(m, r.value, 0, ScanSize(s.program.phdrs, 0, |m|))
  {
    hide TablesClear, ScanSize, BruteForce.Fixed, BruteForce.Slots, Pass, SameRange;
    var scan := ScanSize(s.program.phdrs, 0, |m|);
    SameItself(m, 0, scan);
    if s.HasTables() {
      RelocationKeeps(s, m, 0, scan);
    } else if HasDynamic(s.program.phdrs) {
      var x :| 0 <= x < |s.program.phdrs| && IsText(s.program.phdrs[x], scan);
      AddressScanKeeps(s, m, x);
      SubRange(m, Relocated(s, m).value, 0, s.program.phdrs[x].Extent(), scan);
    }
  }

  lemma SubRange(m: seq<Byte>, n: seq<Byte>, lo: int, hi: int, less: int)
    requires SameRange(m, n, lo, hi) && less <= hi
    ensures SameRange(m, n, lo, less)
  {
  }

  /** Stubs that are clear in the file are clear in the relocated image. */
  lemma StubsStayClear(s: Setup, m: seq<Byte>, n: seq<Byte>, k: nat)
    requires s.program.Fits(|m|) && k < |s.program.phdrs| && StubsClear(s, m, k)
    requires SameRange(m, n, 0, ScanSize(s.program.phdrs, 0, |m|))
    ensures SearchClear(s, n, k)
  {
    hide ScanSize, SlotsPast, StubsMiss, Program.Fits, ScanClear;
    var h := s.program.phdrs[k];
    var scan := ScanSize(s.program.phdrs, 0, |m|);
    ScanSizeInImage(s.program, 0, |m|);
    assert m[..scan] == n[..scan];
    StubsOfSameCode(m, n, scan, s.process, 0);
    forall i | h.vaddr <= i < h.vaddr + h.filesz
      ensures StubsMiss(n, scan, s.process, i)
    {
      StubsOfSameCode(m, n, scan, s.process, i);
      assert StubsMiss(m, scan, s.process, i);
    }
    PastCodeClear(n, 0, scan, s.process, h.vaddr, h.vaddr + h.filesz);
  }

  /** With every condition read off the file's own headers, tables and stubs. */
  lemma CodeIntactFromFile(s: Setup, size: nat, k: nat)
    requires s.program.Fits(size) && size <= TWO64 && s.program.Disjoint() && Checked(s.program, k)
    requires var m, h := Copied(s, size), s.program.phdrs[k];
             (s.HasTables() ==> TablesClear(s, m, h.vaddr, h.vaddr + h.filesz)) && CodeClear(s, m) &&
             StubsClear(s, m, k)
    ensures var r := Loaded(s, size);
            r.Some? && Differences(r.value, s.program, k, s.program.phdrs[k].filesz) == {} &&
            forall diff, first | Counted(r.value, s.program, k, s.program.phdrs[k].filesz, diff, first) :: diff == 0
  {
    hide Relocated, Linked, Loaded, TablesClear, CodeClear, StubsClear, SearchClear, ScanSize, Differences, Counted,
    Copied;
    CodeRelocated(s, Copied(s, size));
    StubsStayClear(s, Copied(s, size), Relocated(s, Copied(s, size)).value, k);
    CodeIntact(s, size, k);
  }

  // ---- The two ways of hooking imports ----

  /** The stub at i goes through the slot of the jump-slot entry that its pushed index names. */
  predicate NamesEntry(m: seq<Byte>, table: nat, n: nat, i: nat, native: int -> Option<Word64>)
    requires table + 24 * n <= |m| && i + 16 <= |m|
  {
    var k := Int32At(m, i + 7);
    0 <= k < n && Hooks(native).Value(k, EntryAt(m, table, k)).Some? &&
    i + 6 + Int32At(m, i + 2) == EntryAt(m, table, k).offset
  }

  ghost predicate StubsNameEntries(m: seq<Byte>, table: nat, n: nat, size: nat, native: int -> Option<Word64>)
    requires table + 24 * n <= |m| && size <= |m|
  {
    forall i: nat | i + 16 < size && MatchAt(m, i) :: NamesEntry(m, table, n, i, native)
  }

  lemma SameDistinct(m: seq<Byte>, r: seq<Byte>, table: nat, n: nat, rule: Rule)
    requires table + 24 * n <= |m| && SameRange(m, r, table, table + 24 * n) &&
             Rebasing.DistinctSlots(m, table, n, rule)
    ensures Rebasing.DistinctSlots(r, table, n, rule)
  {
    hide EntryAt, Rule.Value;
    forall j: nat, k: nat | j < k < n
      ensures Rebasing.SlotsApart(r, table, n, j, k, rule)
    {
      assert Rebasing.SlotsApart(m, table, n, j, k, rule);
      SameEntry(m, r, table, n, j);
      SameEntry(m, r, table, n, k);
    }
  }

  /** After both relocation phases, a jump slot still holds what its entry, as copied, asks for. */
  lemma JumpSlotHolds(s: Setup, m: seq<Byte>, lo: int, hi: int, k: nat)
    requires s.program.Fits(|m|) && |m| <= TWO64 && s.HasTables() && TablesClear(s, m, lo, hi)
    requires var t := s.tables.value;
             k < t.JmprelCount() <= 0x8000_0000 && Rebasing.DistinctSlots(m, t.jmprel, t.JmprelCount(), s.Hook()) &&
             s.Hook().Value(k, EntryAt(m, t.jmprel, k)).Some?
    ensures var r := Relocated(s, m);
            var at := EntryAt(m, s.tables.value.jmprel, k).offset;
            r.Some? && SlotIn(r.value, at) && Read64(r.value, at) == Target(s.process.native, k)
  {
    hide Pass, Regular, SlotsClear, SameRange, Program.Fits, Rebasing.DistinctSlots, EntryAt, Read64, Target,
    Rule.Value;
    var t := s.tables.value;
    var n := t.JmprelCount();
    PassKeeps(m, t.rela, t.RelaCount(), s.Addr(), t.jmprel, t.jmprel + 24 * n);
    var r := Pass(m, t.rela, t.RelaCount(), s.Addr()).value;
    Rebasing.TableInside(m, t.jmprel, n, s.Hook());
    SameTable(m, r, t.jmprel, n, s.Hook(), lo, hi);
    SameDistinct(m, r, t.jmprel, n, s.Hook());
    SameEntry(m, r, t.jmprel, n, k);
    Rebasing.HookNamesImport(r, t.jmprel, n, s.process.native, k);
  }

  /** A stub of the relocated image r names an entry of the jump table as copied, which stores to the stub's slot. */
  predicate NamesCopied(m: seq<Byte>, r: seq<Byte>, table: nat, n: nat, i: nat, native: int -> Option<Word64>)
    requires table + 24 * n <= |m| && i + 16 <= |r|
  {
    var k := Int32At(r, i + 7);
    0 <= k < n && Hooks(native).Value(k, EntryAt(m, table, k)).Some? &&
    i + 6 + Int32At(r, i + 2) == EntryAt(m, table, k).offset
  }

  /** So does every stub that the search comes to. */
  ghost predicate FoundNameEntries(s: Setup, m: seq<Byte>, r: seq<Byte>, scan: nat)
    requires s.HasTables() && s.tables.value.jmprel + 24 * s.tables.value.JmprelCount() <= |m| && scan <= |r|
  {
    var t := s.tables.value;
    scan >= 32 ==> forall i: nat | Finds(r, 0, i, scan, s.process) ::
      NamesCopied(m, r, t.jmprel, t.JmprelCount(), i, s.process.native)
  }

  /** The jump table can be relied on: it is regular, left alone by the first table, and its slots are distinct. */
  ghost predicate SoundJumps(s: Setup, m: seq<Byte>)
    requires s.HasTables()
  {
    var t := s.tables.value;
    TablesClear(s, m, 0, 0) && t.JmprelCount() <= 0x8000_0000 &&
    Rebasing.DistinctSlots(m, t.jmprel, t.JmprelCount(), s.Hook())
  }

  /** Where every stub that is found in the relocated image names its own relocation entry, the search adds nothing to
      the hooks of the table; whatever it covers, relocation slots and the whole image included. */
  lemma HooksAgree(s: Setup, size: nat)
    requires s.program.Fits(size) && size <= TWO64 && s.HasTables() && SoundJumps(s, Copied(s, size))
    requires var r, scan := Relocated(s, Copied(s, size)), ScanSize(s.program.phdrs, 0, size);
             r.Some? && scan <= size ==> FoundNameEntries(s, Copied(s, size), r.value, scan)
    ensures Loaded(s, size).Some? && Loaded(s, size) == Relocated(s, Copied(s, size))
  {
    hide Relocated, TablesClear, ScanSize, Rebasing.DistinctSlots, MatchAt, ComesTo, PlacedUpTo, NamesCopied;
    var m, scan := Copied(s, size), ScanSize(s.program.phdrs, 0, size);
    ScanSizeInImage(s.program, 0, size);
    RelocationKeeps(s, m, 0, 0);
    var r := Relocated(s, m).value;
    if scan >= 32 {
      forall i: nat | Finds(r, 0, i, scan, s.process)
        ensures Agrees(r, StubAt(r, i, s.process))
      {
        StubAgrees(s, m, r, i);
      }
      ScanAgreesFound(r, 0, scan, s.process);
    }
  }

  lemma JumpTableInside(s: Setup, m: seq<Byte>, lo: int, hi: int)
    requires s.HasTables() && TablesClear(s, m, lo, hi)
    ensures s.tables.value.jmprel + 24 * s.tables.value.JmprelCount() <= |m|
  {
  }

  lemma StubAgrees(s: Setup, m: seq<Byte>, r: seq<Byte>, i: nat)
    requires s.program.Fits(|m|) && |m| <= TWO64 && s.HasTables() && SoundJumps(s, m)
    requires Relocated(s, m) == Some(r) && i + 16 <= |r|
    requires var t := s.tables.value;
             NamesCopied(m, r, t.jmprel, t.JmprelCount(), i, s.process.native)
    ensures Agrees(r, StubAt(r, i, s.process))
  {
    hide Relocated, TablesClear, Rebasing.DistinctSlots, Program.Fits, Read64, EntryAt, Target, Int32At, Rule.Value;
    JumpTableInside(s, m, 0, 0);
    JumpSlotHolds(s, m, 0, 0, Int32At(r, i + 7));
  }

  /** For searched code that relocation spares, the stubs can be read from the file. */
  lemma HooksAgreeFromFile(s: Setup, size: nat)
    requires s.program.Fits(size) && size <= TWO64 && s.HasTables() && SoundJumps(s, Copied(s, size))
    requires var m, t, scan := Copied(s, size), s.tables.value, ScanSize(s.program.phdrs, 0, size);
             TablesClear(s, m, 0, scan) && scan <= size &&
             StubsNameEntries(m, t.jmprel, t.JmprelCount(), scan, s.process.native)
    ensures Loaded(s, size).Some? && Loaded(s, size) == Relocated(s, Copied(s, size))
  {
    hide Relocated, TablesClear, ScanSize, Rebasing.DistinctSlots, MatchAt, PlacedUpTo, Int32At, EntryAt, Rule.Value;
    var m, t, scan := Copied(s, size), s.tables.value, ScanSize(s.program.phdrs, 0, size);
    RelocationKeeps(s, m, 0, scan);
    JumpTableInside(s, m, 0, scan);
    var r := Relocated(s, m).value;
    assert m[..scan] == r[..scan];
    forall i: nat | Finds(r, 0, i, scan, s.process)
      ensures NamesCopied(m, r, t.jmprel, t.JmprelCount(), i, s.process.native)
    {
      SameAt(m, r, i, scan, s.process);
      SameInts(m, r, i, scan);
      assert NamesEntry(m, t.jmprel, t.JmprelCount(), i, s.process.native);
    }
    HooksAgree(s, size);
  }
}
