/** How the image after all phases of loading depends on where the program is loaded. */
module RebasedLoad {

  import opened Options
  import opened ByteImage
  import opened ElfSegments
  import opened ElfRelocation
  import opened ImportScan
  import opened Rebasing
  import opened LoaderPipeline

  /** The two images agree outside the set of positions. */
  ghost predicate AgreeOff(m: seq<Byte>, n: seq<Byte>, off: iset<int>) {
    |m| == |n| && forall i | 0 <= i < |m| && i !in off :: m[i] == n[i]
  }

  // ---- The same stores, the same scan ----

  lemma {:induction false} StoresAgreeOff(m: seq<Byte>, n: seq<Byte>, stores: seq<Store>, off: iset<int>)
    requires AgreeOff(m, n, off) && StoresIn(m, stores) && StoresIn(n, stores)
    ensures AgreeOff(StoreAll(m, stores), StoreAll(n, stores), off)
  {
    if |stores| > 0 {
      StoresAgreeOff(m, n, stores[..|stores| - 1], off);
    }
  }

  lemma {:induction false} SameStores(m: seq<Byte>, r: seq<Byte>, table: nat, all: nat, n: nat, rule: Rule)
    requires SameRange(m, r, table, table + 24 * all) && table + 24 * all <= |m| && n <= all
    ensures Stores(m, table, n, rule) == Stores(r, table, n, rule)
  {
    hide EntryAt, SameRange, Rule.Value;
    assert |r| == |m| by { SameSize(m, r, table, table + 24 * all); }
    if n > 0 {
      SameEntry(m, r, table, all, n - 1);
      SameStores(m, r, table, all, n - 1, rule);
    }
  }

  lemma SameSize(m: seq<Byte>, r: seq<Byte>, lo: int, hi: int)
    requires SameRange(m, r, lo, hi)
    ensures |m| == |r|
  {
  }

  /** The same table in two images stores the same. */
  lemma PassAgreeOff(m: seq<Byte>, a: seq<Byte>, b: seq<Byte>, table: nat, n: nat, rule: Rule, off: iset<int>)
    requires Regular(m, table, n, rule) && AgreeOff(a, b, off)
    requires SameRange(m, a, table, table + 24 * n) && SameRange(m, b, table, table + 24 * n)
    ensures var p, q := Pass(a, table, n, rule), Pass(b, table, n, rule);
            p.Some? && q.Some? && AgreeOff(p.value, q.value, off)
  {
    hide Regular, Pass, SameRange, AgreeOff, Rule.Value, EntryAt, StoreAll;
    TableInside(m, table, n, rule);
    SameSize(m, a, table, table + 24 * n);
    SameSize(m, b, table, table + 24 * n);
    SameTable(m, a, table, n, rule, 0, 0);
    SameTable(m, b, table, n, rule, 0, 0);
    PassIsStores(a, table, n, n, rule);
    PassIsStores(b, table, n, n, rule);
    SameStores(m, a, table, n, n, rule);
    SameStores(m, b, table, n, n, rule);
    StoresAgreeOff(a, b, Stores(m, table, n, rule), off);
  }

  /** No stub's slot reaches into the set. */
  ghost predicate StubsMissAll(m: seq<Byte>, size: nat, p: Process, off: iset<int>)
    requires size <= |m|
  {
    forall b | b in off :: StubsMiss(m, size, p, b)
  }

  /** The searches of the two images find the same stubs, with their slots in the images and outside the set. */
  ghost predicate SearchesAlike(m: seq<Byte>, n: seq<Byte>, i: nat, size: nat, p: Process, off: iset<int>)
    requires size <= |m| == |n|
    decreases size - i
  {
    if i + 16 >= size then true
    else
      MatchAt(m, i) == MatchAt(n, i) &&
      if !MatchAt(m, i) then SearchesAlike(m, n, i + 1, size, p, off)
      else
        var s := StubAt(m, i, p);
        StubAt(n, i, p) == s && SlotIn(m, s.slot) && SparesAll(s, off) &&
        if Hooked(Read64(m, s.slot)) then SearchesAlike(m, n, i + 1, size, p, off)
        else SearchesAlike(Patched(m, s, p), Patched(n, s, p), i + 16, size, p, off)
  }

  ghost predicate SparesAll(s: Stub, off: iset<int>) {
    forall b | b in off :: Spares(s, b)
  }

  lemma SlotReadsAlike(m: seq<Byte>, n: seq<Byte>, s: Stub, off: iset<int>)
    requires AgreeOff(m, n, off) && SlotIn(m, s.slot) && SparesAll(s, off)
    ensures SlotIn(n, s.slot) && Read64(m, s.slot) == Read64(n, s.slot)
  {
    hide Read64;
    forall j | s.slot <= j < s.slot + 8
      ensures j !in off
    {
      assert j in off ==> Spares(s, j);
    }
    assert m[s.slot..s.slot + 8] == n[s.slot..s.slot + 8];
    SameBytesRead(m, n, s.slot);
  }

  /** Such searches finish and patch the images alike. */
  lemma {:induction false} ScanAlike(m: seq<Byte>, n: seq<Byte>, i: nat, size: nat, p: Process, off: iset<int>)
    requires size <= |m| && AgreeOff(m, n, off) && SearchesAlike(m, n, i, size, p, off)
    ensures var a, b := Scan(m, i, size, p), Scan(n, i, size, p);
            a.Some? && b.Some? && AgreeOff(a.value, b.value, off)
    decreases size - i
  {
    hide StubAt, MatchAt, Read64, Patched, AgreeOff, Hooked, SparesAll;
    assert |m| == |n| by { AgreeSize(m, n, off); }
    if i + 16 < size {
      if !MatchAt(m, i) {
        ScanAlike(m, n, i + 1, size, p, off);
      } else {
        var s := StubAt(m, i, p);
        SlotReadsAlike(m, n, s, off);
        if Hooked(Read64(m, s.slot)) {
          ScanAlike(m, n, i + 1, size, p, off);
        } else {
          PatchesAgree(m, n, s, p, off);
          ScanAlike(Patched(m, s, p), Patched(n, s, p), i + 16, size, p, off);
        }
      }
    }
  }

  lemma AgreeSize(m: seq<Byte>, n: seq<Byte>, off: iset<int>)
    requires AgreeOff(m, n, off)
    ensures |m| == |n|
  {
  }

  /** And they spare every range in the set. */
  lemma {:induction false} AlikeClear(m: seq<Byte>, n: seq<Byte>, i: nat, size: nat, p: Process, off: iset<int>,
                                      lo: int, hi: int)
    requires size <= |m| && AgreeOff(m, n, off) && SearchesAlike(m, n, i, size, p, off)
    requires forall b | lo <= b < hi :: b in off
    ensures |n| == |m| && ScanClear(m, i, size, p, lo, hi) && ScanClear(n, i, size, p, lo, hi)
    decreases size - i
  {
    hide StubAt, MatchAt, Read64, Patched, AgreeOff, Hooked;
    AgreeSize(m, n, off);
    if i + 16 < size {
      if !MatchAt(m, i) {
        AlikeClear(m, n, i + 1, size, p, off, lo, hi);
      } else {
        var s := StubAt(m, i, p);
        SlotReadsAlike(m, n, s, off);
        assert SparesRange(s, lo, hi);
        if Hooked(Read64(m, s.slot)) {
          AlikeClear(m, n, i + 1, size, p, off, lo, hi);
        } else {
          PatchesAgree(m, n, s, p, off);
          AlikeClear(Patched(m, s, p), Patched(n, s, p), i + 16, size, p, off, lo, hi);
        }
      }
    }
  }

  /** Two images with the same code, and slots past it and outside the set, are searched alike. */
  lemma {:induction false} SameCodeAlike(m: seq<Byte>, n: seq<Byte>, i: nat, size: nat, p: Process, off: iset<int>)
    requires SameCode(m, n, size) && AgreeOff(m, n, off) && SlotsPast(m, size, p) && StubsMissAll(m, size, p, off)
    ensures SearchesAlike(m, n, i, size, p, off)
    decreases size - i
  {
    hide StubAt, MatchAt, Read64, Patched, SlotsPast, StubsMissAll, AgreeOff, Hooked, SparesAll;
    if i + 16 < size {
      SameAt(m, n, i, size, p);
      SameCodeAlike(m, n, i + 1, size, p, off);
      if MatchAt(m, i) {
        var s := StubAt(m, i, p);
        StubAgrees(m, n, i, size, p, off);
        SameCodeAlike(Patched(m, s, p), Patched(n, s, p), i + 16, size, p, off);
      }
    }
  }

  lemma StubAgrees(m: seq<Byte>, n: seq<Byte>, i: nat, size: nat, p: Process, off: iset<int>)
    requires SameCode(m, n, size) && AgreeOff(m, n, off) && SlotsPast(m, size, p) && StubsMissAll(m, size, p, off)
    requires i + 16 < size && MatchAt(m, i)
    ensures var s := StubAt(m, i, p);
            SlotIn(m, s.slot) && SlotIn(n, s.slot) && SparesAll(s, off) &&
            SameCode(Patched(m, s, p), Patched(n, s, p), size) && AgreeOff(Patched(m, s, p), Patched(n, s, p), off) &&
            SlotsPast(Patched(m, s, p), size, p) && StubsMissAll(Patched(m, s, p), size, p, off)
  {
    hide StubAt, MatchAt, Read64, SlotsPast, StubsMiss, AgreeOff, Patched;
    var s := StubAt(m, i, p);
    assert PastCode(m, s, size) by { StubIsPast(m, i, size, p); }
    forall b | b in off
      ensures Spares(s, b)
    {
      StubMisses(m, i, size, p, b);
    }
    SlotReadsAlike(m, n, s, off);
    PatchesAgree(m, n, s, p, off);
    PatchedCode(m, s, size, p);
    PatchedCode(n, s, size, p);
    StubsOfSameCode(m, Patched(m, s, p), size, p, 0);
    forall b | b in off
      ensures StubsMiss(Patched(m, s, p), size, p, b)
    {
      StubsOfSameCode(m, Patched(m, s, p), size, p, b);
    }
  }

  lemma StubIsPast(m: seq<Byte>, i: nat, size: nat, p: Process)
    requires size <= |m| && SlotsPast(m, size, p) && i + 16 < size && MatchAt(m, i)
    ensures PastCode(m, StubAt(m, i, p), size)
  {
  }

  lemma StubMisses(m: seq<Byte>, i: nat, size: nat, p: Process, b: int)
    requires size <= |m| && StubsMiss(m, size, p, b) && i + 16 < size && MatchAt(m, i)
    ensures Spares(StubAt(m, i, p), b)
  {
  }

  lemma SameBytesRead(m: seq<Byte>, n: seq<Byte>, at: int)
    requires SlotIn(m, at) && SlotIn(n, at) && m[at..at + 8] == n[at..at + 8]
    ensures Read64(m, at) == Read64(n, at)
  {
  }

  lemma PatchesAgree(m: seq<Byte>, n: seq<Byte>, s: Stub, p: Process, off: iset<int>)
    requires AgreeOff(m, n, off) && SlotIn(m, s.slot) && SlotIn(n, s.slot) && Read64(m, s.slot) == Read64(n, s.slot)
    ensures AgreeOff(Patched(m, s, p), Patched(n, s, p), off)
  {
    hide Read64, Hooked;
  }

  // ---- Loading at another base ----

  /** The positions in RELATIVE slots. */
  ghost function Relatives(s: Setup, m: seq<Byte>): iset<int>
    requires s.HasTables() && s.tables.value.rela + 24 * s.tables.value.RelaCount() <= |m|
  {
    iset i | InRelativeSlot(m, s.tables.value.rela, s.tables.value.RelaCount(), i)
  }

  /** The tables are regular, the first leaves the second alone, and RELATIVE slots are used for nothing else.
      All of it is read from the image as copied. */
  ghost predicate Rebasable(s: Setup, m: seq<Byte>)
    requires s.HasTables() && s.program.Fits(|m|)
  {
    var t := s.tables.value;
    TablesClear(s, m, 0, 0) && DistinctSlots(m, t.rela, t.RelaCount(), s.Addr()) &&
    forall k: nat | k < t.RelaCount() && IsRelative(m, t.rela, t.RelaCount(), k) :: JumpsSpare(s, m, k)
  }

  /** Relocated for either base, the image is searched for stubs alike, and no stub's slot reaches into a
      RELATIVE one. */
  ghost predicate SearchedAlike(s: Setup, m: seq<Byte>, b: Word64)
    requires s.HasTables() && s.program.Fits(|m|) && |m| <= TWO64 && Rebasable(s, m)
  {
    var p, q := Relocated(s, m), Relocated(s.(base := b), m);
    var scan := ScanSize(s.program.phdrs, 0, |m|);
    ScanSizeInImage(s.program, 0, |m|);
    p.Some? && q.Some? ==> scan < 32 || SearchesAlike(p.value, q.value, 0, scan, s.process, Relatives(s, m))
  }

  /** No jump slot reaches into entry k's slot. */
  ghost predicate JumpsSpare(s: Setup, m: seq<Byte>, k: nat)
    requires s.HasTables() && s.tables.value.jmprel + 24 * s.tables.value.JmprelCount() <= |m|
    requires EntryIn(m, s.tables.value.rela, k)
  {
    var t, at := s.tables.value, EntryAt(m, s.tables.value.rela, k).offset;
    SlotsClear(m, t.jmprel, t.JmprelCount(), s.Hook(), at, at + 8)
  }

  /** What relocation touches does not depend on the base. */
  lemma ClearAnywhere(s: Setup, m: seq<Byte>, b: Word64, lo: int, hi: int)
    requires s.HasTables() && TablesClear(s, m, lo, hi)
    ensures TablesClear(s.(base := b), m, lo, hi)
  {
    hide EntryAt, Regular, SlotClear;
    var t, u := s.tables.value, s.(base := b);
    RegularAnywhere(m, t.rela, t.RelaCount(), s.base, b, s.symbol);
    TableInside(m, t.rela, t.RelaCount(), s.Addr());
    SlotsClearAnywhere(m, t.rela, t.RelaCount(), s.base, b, s.symbol, lo, hi);
    SlotsClearAnywhere(m, t.rela, t.RelaCount(), s.base, b, s.symbol, t.jmprel, t.jmprel + 24 * t.JmprelCount());
  }

  lemma SlotsClearAnywhere(m: seq<Byte>, table: nat, n: nat, b1: Word64, b2: Word64, symbol: nat -> Option<Word64>,
                           lo: int, hi: int)
    requires table + 24 * n <= |m| && SlotsClear(m, table, n, Addresses(b1, symbol), lo, hi)
    ensures SlotsClear(m, table, n, Addresses(b2, symbol), lo, hi)
  {
    hide EntryAt;
    forall k: nat | k < n
      ensures SlotClear(m, table, n, k, Addresses(b2, symbol), lo, hi)
    {
      assert SlotClear(m, table, n, k, Addresses(b1, symbol), lo, hi);
    }
  }

  /** Only RELATIVE slots depend on the base after the first table. */
  lemma FirstTableAgrees(s: Setup, m: seq<Byte>, b: Word64)
    requires s.program.Fits(|m|) && s.HasTables() && Rebasable(s, m)
    ensures var t := s.tables.value;
            var p, q := Pass(m, t.rela, t.RelaCount(), s.Addr()),
                        Pass(m, t.rela, t.RelaCount(), Addresses(b, s.symbol));
            t.rela + 24 * t.RelaCount() <= |m| && p.Some? && q.Some? && AgreeOff(p.value, q.value, Relatives(s, m))
  {
    hide Pass, Regular, InRelativeSlot, SlotsClear, DistinctSlots, JumpsSpare;
    var t := s.tables.value;
    TableInside(m, t.rela, t.RelaCount(), s.Addr());
    RegularAnywhere(m, t.rela, t.RelaCount(), s.base, b, s.symbol);
    PassKeepsNothing(m, t.rela, t.RelaCount(), s.Addr());
    PassKeepsNothing(m, t.rela, t.RelaCount(), Addresses(b, s.symbol));
    forall i | 0 <= i < |m| && i !in Relatives(s, m)
      ensures Pass(m, t.rela, t.RelaCount(), s.Addr()).value[i] ==
              Pass(m, t.rela, t.RelaCount(), Addresses(b, s.symbol)).value[i]
    {
      RebasingFrame(m, t.rela, t.RelaCount(), s.base, b, s.symbol, i);
    }
  }

  lemma PassKeepsNothing(m: seq<Byte>, table: nat, n: nat, rule: Rule)
    requires Regular(m, table, n, rule)
    ensures Pass(m, table, n, rule).Some?
  {
    PassIsStores(m, table, n, n, rule);
  }

  lemma ClearKeepsTable(s: Setup, m: seq<Byte>, lo: int, hi: int)
    requires s.HasTables() && TablesClear(s, m, lo, hi)
    ensures var t := s.tables.value;
            var r := Pass(m, t.rela, t.RelaCount(), s.Addr());
            r.Some? && SameRange(m, r.value, t.jmprel, t.jmprel + 24 * t.JmprelCount()) &&
            Regular(m, t.jmprel, t.JmprelCount(), s.Hook())
  {
    var t := s.tables.value;
    PassKeeps(m, t.rela, t.RelaCount(), s.Addr(), t.jmprel, t.jmprel + 24 * t.JmprelCount());
  }

  /** Nor do other bytes after the second. */
  lemma RelocatedAgrees(s: Setup, m: seq<Byte>, b: Word64)
    requires s.program.Fits(|m|) && |m| <= TWO64 && s.HasTables() && Rebasable(s, m)
    ensures s.tables.value.rela + 24 * s.tables.value.RelaCount() <= |m|
    ensures var p, q := Relocated(s, m), Relocated(s.(base := b), m);
            p.Some? && q.Some? && AgreeOff(p.value, q.value, Relatives(s, m))
  {
    hide Pass, Regular, SlotsClear, DistinctSlots, JumpsSpare, AgreeOff, Relatives, SameRange, TablesClear;
    var t, u := s.tables.value, s.(base := b);
    FirstTableAgrees(s, m, b);
    ClearAnywhere(s, m, b, 0, 0);
    ClearKeepsTable(s, m, 0, 0);
    ClearKeepsTable(u, m, 0, 0);
    var first := Pass(m, t.rela, t.RelaCount(), s.Addr()).value;
    var second := Pass(m, t.rela, t.RelaCount(), u.Addr()).value;
    PassAgreeOff(m, first, second, t.jmprel, t.JmprelCount(), s.Hook(), Relatives(s, m));
  }

  lemma RelaInside(s: Setup, m: seq<Byte>, lo: int, hi: int)
    requires s.HasTables() && TablesClear(s, m, lo, hi)
    ensures s.tables.value.rela + 24 * s.tables.value.RelaCount() <= |m|
  {
  }

  lemma RebasableInside(s: Setup, m: seq<Byte>)
    requires s.program.Fits(|m|) && s.HasTables() && Rebasable(s, m)
    ensures s.tables.value.rela + 24 * s.tables.value.RelaCount() <= |m|
  {
  }

  /** The jump slots leave RELATIVE slots alone. */
  lemma RelativeSlotKept(s: Setup, m: seq<Byte>, k: nat, lo: int, hi: int)
    requires s.program.Fits(|m|) && |m| <= TWO64 && s.HasTables() && TablesClear(s, m, lo, hi)
    requires k < s.tables.value.RelaCount() && JumpsSpare(s, m, k)
    ensures var t := s.tables.value;
            var at := EntryAt(m, t.rela, k).offset;
            var a, r := Pass(m, t.rela, t.RelaCount(), s.Addr()), Relocated(s, m);
            a.Some? && r.Some? && SameRange(a.value, r.value, at, at + 8)
  {
    hide Pass, Regular, SlotsClear, SameRange, EntryAt, TablesClear, Program.Fits, Rule.Value;
    RelaInside(s, m, lo, hi);
    var t, at: int := s.tables.value, EntryAt(m, s.tables.value.rela, k).offset;
    ClearKeepsTable(s, m, lo, hi);
    var a := Pass(m, t.rela, t.RelaCount(), s.Addr()).value;
    SameTable(m, a, t.jmprel, t.JmprelCount(), s.Hook(), at, at + 8);
    PassKeeps(a, t.jmprel, t.JmprelCount(), s.Hook(), at, at + 8);
  }

  lemma SlotOfRange(m: seq<Byte>, n: seq<Byte>, at: int)
    requires SameRange(m, n, at, at + 8) && SlotIn(m, at)
    ensures SlotIn(n, at) && Read64(m, at) == Read64(n, at)
  {
    assert m[at..at + 8] == n[at..at + 8];
  }

  lemma RelocatedShifts(s: Setup, m: seq<Byte>, b: Word64, k: nat)
    requires s.program.Fits(|m|) && |m| <= TWO64 && s.HasTables() && Rebasable(s, m)
    requires var t := s.tables.value;
             k < t.RelaCount() && IsRelative(m, t.rela, t.RelaCount(), k)
    ensures var p, q := Relocated(s, m), Relocated(s.(base := b), m);
            var at := EntryAt(m, s.tables.value.rela, k).offset;
            p.Some? && q.Some? && SlotIn(p.value, at) && SlotIn(q.value, at) &&
            Read64(q.value, at) == Wrap(Read64(p.value, at) + b - s.base)
  {
    hide Pass, Relocated, SlotsClear, DistinctSlots, SameRange, Read64, EntryAt, Wrap;
    var t, u := s.tables.value, s.(base := b);
    var at := EntryAt(m, t.rela, k).offset;
    ClearAnywhere(s, m, b, 0, 0);
    assert JumpsSpare(s, m, k) && JumpsSpare(u, m, k);
    RelativeSlotKept(s, m, k, 0, 0);
    RelativeSlotKept(u, m, k, 0, 0);
    RebasingShifts(m, t.rela, t.RelaCount(), s.base, b, s.symbol, k);
    SlotOfRange(Pass(m, t.rela, t.RelaCount(), s.Addr()).value, Relocated(s, m).value, at);
    SlotOfRange(Pass(m, t.rela, t.RelaCount(), u.Addr()).value, Relocated(u, m).value, at);
  }

  /** The stub search is the same at every base. */
  lemma SameLinking(s: Setup, b: Word64, n: seq<Byte>)
    requires s.program.Fits(|n|)
    ensures Linked(s.(base := b), n) == Linked(s, n)
  {
    hide Resolved;
  }

  /** Loading at another base leaves every byte outside the RELATIVE slots as it was, through both tables and the
      stub search. */
  lemma LoadedAgrees(s: Setup, size: nat, b: Word64)
    requires s.program.Fits(size) && size <= TWO64 && s.HasTables()
    requires Rebasable(s, Copied(s, size)) && SearchedAlike(s, Copied(s, size), b)
    ensures s.tables.value.rela + 24 * s.tables.value.RelaCount() <= size
    ensures var p, q := Loaded(s, size), Loaded(s.(base := b), size);
            p.Some? && q.Some? && AgreeOff(p.value, q.value, Relatives(s, Copied(s, size)))
  {
    hide Relocated, Rebasable, AgreeOff, Relatives, ScanSize, PlacedUpTo, Scan, SearchesAlike, Program.Fits;
    var m, u := Copied(s, size), s.(base := b);
    ScanSizeInImage(s.program, 0, size);
    RelocatedAgrees(s, m, b);
    var n, o := Relocated(s, m).value, Relocated(u, m).value;
    var scan := ScanSize(s.program.phdrs, 0, size);
    SameLinking(s, b, o);
    if scan >= 32 {
      ScanAlike(n, o, 0, scan, s.process, Relatives(s, m));
    }
  }

  /** The stub search leaves a RELATIVE slot alone. */
  lemma LinkedKeepsRelative(s: Setup, m: seq<Byte>, b: Word64, k: nat)
    requires s.program.Fits(|m|) && |m| <= TWO64 && s.HasTables() && Rebasable(s, m) && SearchedAlike(s, m, b)
    requires var t := s.tables.value;
             k < t.RelaCount() && IsRelative(m, t.rela, t.RelaCount(), k)
    ensures var p, q := Relocated(s, m), Relocated(s.(base := b), m);
            var at := EntryAt(m, s.tables.value.rela, k).offset;
            p.Some? && q.Some? && Linked(s, p.value).Some? && Linked(s, q.value).Some? &&
            SameRange(p.value, Linked(s, p.value).value, at, at + 8) &&
            SameRange(q.value, Linked(s, q.value).value, at, at + 8)
  {
    hide Relocated, Rebasable, AgreeOff, ScanSize, Program.Fits, ScanClear, Scan, EntryAt, SearchesAlike, SameRange;
    RebasableInside(s, m);
    ScanSizeInImage(s.program, 0, |m|);
    RelocatedAgrees(s, m, b);
    var n, o := Relocated(s, m).value, Relocated(s.(base := b), m).value;
    var at: int := EntryAt(m, s.tables.value.rela, k).offset;
    var scan := ScanSize(s.program.phdrs, 0, |m|);
    SameItself(n, at, at + 8);
    SameItself(o, at, at + 8);
    assert forall i | at <= i < at + 8 :: i in Relatives(s, m);
    if scan >= 32 {
      AlikeClear(n, o, 0, scan, s.process, Relatives(s, m), at, at + 8);
      ScanKeeps(n, 0, scan, s.process, at, at + 8);
      ScanKeeps(o, 0, scan, s.process, at, at + 8);
    }
  }

  /** And it shifts every RELATIVE slot by the distance of the bases, modulo 2^64. */
  lemma LoadedShifts(s: Setup, size: nat, b: Word64, k: nat)
    requires s.program.Fits(size) && size <= TWO64 && s.HasTables()
    requires Rebasable(s, Copied(s, size)) && SearchedAlike(s, Copied(s, size), b)
    requires var t := s.tables.value;
             k < t.RelaCount() && IsRelative(Copied(s, size), t.rela, t.RelaCount(), k)
    ensures var p, q := Loaded(s, size), Loaded(s.(base := b), size);
            var at := EntryAt(Copied(s, size), s.tables.value.rela, k).offset;
            p.Some? && q.Some? && SlotIn(p.value, at) && SlotIn(q.value, at) &&
            Read64(q.value, at) == Wrap(Read64(p.value, at) + b - s.base)
  {
    hide Relocated, Linked, SameRange, PlacedUpTo, EntryAt, Read64, Wrap, IsRelative, Rebasable, SearchedAlike;
    var m, u := Copied(s, size), s.(base := b);
    RebasableInside(s, m);
    var at := EntryAt(m, s.tables.value.rela, k).offset;
    RelocatedShifts(s, m, b, k);
    LinkedKeepsRelative(s, m, b, k);
    SameLinking(s, b, Relocated(u, m).value);
    SlotOfRange(Relocated(s, m).value, Linked(s, Relocated(s, m).value).value, at);
    SlotOfRange(Relocated(u, m).value, Linked(s, Relocated(u, m).value).value, at);
  }

  /** For code that relocation spares, with the stubs' slots past it and outside the RELATIVE slots in the file, the
      search is alike at every base. */
  lemma SparedCodeAlike(s: Setup, m: seq<Byte>, b: Word64)
    requires s.program.Fits(|m|) && |m| <= TWO64 && s.HasTables() && Rebasable(s, m)
    requires var scan := ScanSize(s.program.phdrs, 0, |m|);
             scan <= |m| && TablesClear(s, m, 0, scan) && SlotsPast(m, scan, s.process) &&
             StubsMissAll(m, scan, s.process, Relatives(s, m))
    ensures SearchedAlike(s, m, b)
  {
    hide Relocated, Rebasable, AgreeOff, Relatives, ScanSize, Program.Fits, TablesClear, SlotsPast, StubsMiss,
    SearchesAlike;
    var u, scan := s.(base := b), ScanSize(s.program.phdrs, 0, |m|);
    RelocatedAgrees(s, m, b);
    ClearAnywhere(s, m, b, 0, scan);
    RelocationKeeps(s, m, 0, scan);
    RelocationKeeps(u, m, 0, scan);
    var n, o := Relocated(s, m).value, Relocated(u, m).value;
    assert m[..scan] == n[..scan] && m[..scan] == o[..scan];
    StubsOfSameCode(m, n, scan, s.process, 0);
    forall x | x in Relatives(s, m)
      ensures StubsMiss(n, scan, s.process, x)
    {
      StubsOfSameCode(m, n, scan, s.process, x);
    }
    SameCodeAlike(n, o, 0, scan, s.process, Relatives(s, m));
  }
}
