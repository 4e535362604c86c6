/** What relocation leaves in the image, and how it depends on where the program is loaded. */
module Rebasing {

  import opened Options
  import opened ByteImage
  import opened ElfRelocation

  lemma TableInside(m: seq<Byte>, table: nat, n: nat, rule: Rule)
    requires Regular(m, table, n, rule)
    ensures table + 24 * n <= |m|
  {
  }

  /** The slots of the first n entries that store are pairwise apart. */
  ghost predicate DistinctSlots(m: seq<Byte>, table: nat, n: nat, rule: Rule)
    requires table + 24 * n <= |m|
  {
    forall j: nat, k: nat | j < k < n :: SlotsApart(m, table, n, j, k, rule)
  }

  predicate SlotsApart(m: seq<Byte>, table: nat, n: nat, j: nat, k: nat, rule: Rule)
    requires table + 24 * n <= |m| && j < n && k < n
  {
    var d, e := EntryAt(m, table, j), EntryAt(m, table, k);
    rule.Value(j, d).Some? && rule.Value(k, e).Some? ==> Apart(d.offset, e.offset)
  }

  lemma {:induction false} DistinctStores(m: seq<Byte>, table: nat, all: nat, n: nat, rule: Rule)
    requires n <= all && table + 24 * all <= |m| && DistinctSlots(m, table, all, rule)
    ensures StoresApart(Stores(m, table, n, rule))
  {
    hide EntryAt, Rule.Value;
    if n > 0 {
      DistinctStores(m, table, all, n - 1, rule);
      var before := Stores(m, table, n - 1, rule);
      if rule.Value(n - 1, EntryAt(m, table, n - 1)).Some? {
        forall j | 0 <= j < |before|
          ensures Apart(before[j].at, EntryAt(m, table, n - 1).offset)
        {
          var k := StoreHasEntry(m, table, n - 1, rule, j);
          assert SlotsApart(m, table, all, k, n - 1, rule);
        }
      }
    }
  }

  /** After the pass, every entry's slot holds its value. */
  lemma EntriesHold(m: seq<Byte>, table: nat, n: nat, rule: Rule, k: nat)
    requires Regular(m, table, n, rule) && DistinctSlots(m, table, n, rule)
    requires k < n && rule.Value(k, EntryAt(m, table, k)).Some?
    ensures var r := Pass(m, table, n, rule);
            var e := EntryAt(m, table, k);
            r.Some? && SlotIn(m, e.offset) && Read64(r.value, e.offset) == rule.Value(k, e).value
  {
    PassIsStores(m, table, n, n, rule);
    DistinctStores(m, table, n, n, rule);
    RegularAt(m, table, n, k, rule);
    var j := EntryHasStore(m, table, n, rule, k);
    StoresHold(m, Stores(m, table, n, rule), j);
  }

  /** Byte i belongs to no slot that the first n entries store to. */
  ghost predicate Untouched(m: seq<Byte>, table: nat, n: nat, rule: Rule, i: int)
    requires table + 24 * n <= |m|
  {
    forall k: nat | k < n :: OffSlot(m, table, n, k, rule, i)
  }

  predicate OffSlot(m: seq<Byte>, table: nat, n: nat, k: nat, rule: Rule, i: int)
    requires table + 24 * n <= |m| && k < n
  {
    var e := EntryAt(m, table, k);
    rule.Value(k, e).Some? ==> !(e.offset <= i < e.offset + 8)
  }

  /** The pass changes nothing but the slots. */
  lemma PassFrame(m: seq<Byte>, table: nat, n: nat, rule: Rule, i: int)
    requires Regular(m, table, n, rule) && 0 <= i < |m| && Untouched(m, table, n, rule, i)
    ensures var r := Pass(m, table, n, rule);
            r.Some? && r.value[i] == m[i]
  {
    PassIsStores(m, table, n, n, rule);
    var stores := Stores(m, table, n, rule);
    forall j | 0 <= j < |stores|
      ensures !(stores[j].at <= i < stores[j].at + 8)
    {
      var k := StoreHasEntry(m, table, n, rule, j);
      assert OffSlot(m, table, n, k, rule, i);
    }
    StoresFrame(m, stores, i);
  }

  // ---- Two bases ----

  predicate IsRelative(m: seq<Byte>, table: nat, n: nat, k: nat)
    requires table + 24 * n <= |m| && k < n
  {
    EntryAt(m, table, k).Type() == R_X86_64_RELATIVE
  }

  /** Byte i is in the slot of a RELATIVE entry. */
  ghost predicate InRelativeSlot(m: seq<Byte>, table: nat, n: nat, i: int)
    requires table + 24 * n <= |m|
  {
    exists k: nat | k < n :: IsRelative(m, table, n, k) &&
      EntryAt(m, table, k).offset <= i < EntryAt(m, table, k).offset + 8
  }

  /** Both bases store to the same slots, and the same values except to RELATIVE slots. */
  lemma {:induction false} StoresCorrespond(m: seq<Byte>, table: nat, all: nat, n: nat, b1: Word64, b2: Word64,
                                            symbol: nat -> Option<Word64>, i: int)
    requires n <= all && table + 24 * all <= |m| && !InRelativeSlot(m, table, all, i)
    ensures var s, t := Stores(m, table, n, Addresses(b1, symbol)), Stores(m, table, n, Addresses(b2, symbol));
            |s| == |t| && (forall j | 0 <= j < |s| :: s[j].at == t[j].at) &&
            forall j | 0 <= j < |s| :: s[j].value == t[j].value || !(s[j].at <= i < s[j].at + 8)
  {
    hide EntryAt;
    if n > 0 {
      StoresCorrespond(m, table, all, n - 1, b1, b2, symbol, i);
      if IsRelative(m, table, all, n - 1) {
        var at := EntryAt(m, table, n - 1).offset;
        assert !(at <= i < at + 8);
      }
    }
  }

  lemma RegularAnywhere(m: seq<Byte>, table: nat, n: nat, b1: Word64, b2: Word64, symbol: nat -> Option<Word64>)
    requires Regular(m, table, n, Addresses(b1, symbol))
    ensures Regular(m, table, n, Addresses(b2, symbol))
    ensures DistinctSlots(m, table, n, Addresses(b1, symbol)) ==> DistinctSlots(m, table, n, Addresses(b2, symbol))
  {
    forall k: nat | k < n
      ensures RegularEntry(m, table, n, k, Addresses(b2, symbol))
    {
      RegularAt(m, table, n, k, Addresses(b1, symbol));
    }
    if DistinctSlots(m, table, n, Addresses(b1, symbol)) {
      forall j: nat, k: nat | j < k < n
        ensures SlotsApart(m, table, n, j, k, Addresses(b2, symbol))
      {
        assert SlotsApart(m, table, n, j, k, Addresses(b1, symbol));
      }
    }
  }

  /** Loading at another base leaves every byte outside the RELATIVE slots as it was. */
  lemma RebasingFrame(m: seq<Byte>, table: nat, n: nat, b1: Word64, b2: Word64, symbol: nat -> Option<Word64>, i: int)
    requires Regular(m, table, n, Addresses(b1, symbol))
    requires 0 <= i < |m| && !InRelativeSlot(m, table, n, i)
    ensures var r1, r2 := Pass(m, table, n, Addresses(b1, symbol)), Pass(m, table, n, Addresses(b2, symbol));
            r1.Some? && r2.Some? && r1.value[i] == r2.value[i]
  {
    hide Regular, Pass, EntryAt, Rule.Value, StoreAll, InRelativeSlot;
    TableInside(m, table, n, Addresses(b1, symbol));
    RegularAnywhere(m, table, n, b1, b2, symbol);
    PassIsStores(m, table, n, n, Addresses(b1, symbol));
    PassIsStores(m, table, n, n, Addresses(b2, symbol));
    StoresCorrespond(m, table, n, n, b1, b2, symbol, i);
    StoresAgree(m, Stores(m, table, n, Addresses(b1, symbol)), Stores(m, table, n, Addresses(b2, symbol)), i);
  }

  lemma ShiftedBase(b1: Word64, b2: Word64, addend: Word64)
    ensures Wrap(b2 + addend) == Wrap(Wrap(b1 + addend) + b2 - b1)
  {
    var q := (b1 + addend) / TWO64;
    assert Wrap(b1 + addend) + b2 - b1 == b2 + addend - q * TWO64;
  }

  /** A RELATIVE slot holds base plus addend. */
  lemma RelativeHolds(m: seq<Byte>, table: nat, n: nat, base: Word64, symbol: nat -> Option<Word64>, k: nat)
    requires Regular(m, table, n, Addresses(base, symbol)) && DistinctSlots(m, table, n, Addresses(base, symbol))
    requires k < n && IsRelative(m, table, n, k)
    ensures var r := Pass(m, table, n, Addresses(base, symbol));
            var e := EntryAt(m, table, k);
            r.Some? && SlotIn(m, e.offset) && Read64(r.value, e.offset) == Wrap(base + e.addend)
  {
    hide EntryAt, Read64, Pass, DistinctSlots;
    EntriesHold(m, table, n, Addresses(base, symbol), k);
  }

  /** Loading at another base shifts every RELATIVE slot by the distance of the bases, modulo 2^64. */
  lemma RebasingShifts(m: seq<Byte>, table: nat, n: nat, b1: Word64, b2: Word64, symbol: nat -> Option<Word64>, k: nat)
    requires Regular(m, table, n, Addresses(b1, symbol)) && DistinctSlots(m, table, n, Addresses(b1, symbol))
    requires k < n && IsRelative(m, table, n, k)
    ensures var r1, r2 := Pass(m, table, n, Addresses(b1, symbol)), Pass(m, table, n, Addresses(b2, symbol));
            var at := EntryAt(m, table, k).offset;
            r1.Some? && r2.Some? && SlotIn(m, at) && Read64(r2.value, at) == Wrap(Read64(r1.value, at) + b2 - b1)
  {
    hide Regular, DistinctSlots, IsRelative, Pass, EntryAt, Read64, Wrap;
    TableInside(m, table, n, Addresses(b1, symbol));
    RegularAnywhere(m, table, n, b1, b2, symbol);
    RelativeHolds(m, table, n, b1, symbol, k);
    RelativeHolds(m, table, n, b2, symbol, k);
    ShiftedBase(b1, b2, EntryAt(m, table, k).addend);
  }

  // ---- Import hooks ----

  /** A slot that holds a place in the hook region tells which import it belongs to. */
  lemma HookNamesImport(m: seq<Byte>, table: nat, n: nat, native: int -> Option<Word64>, k: nat)
    requires Regular(m, table, n, Hooks(native)) && DistinctSlots(m, table, n, Hooks(native)) && n <= 0x8000_0000
    requires k < n && Hooks(native).Value(k, EntryAt(m, table, k)).Some?
    ensures var r := Pass(m, table, n, Hooks(native));
            var at := EntryAt(m, table, k).offset;
            r.Some? && SlotIn(m, at) && Read64(r.value, at) == Target(native, k) &&
            (native(k) == None ==> Read64(r.value, at) - HOOKS == k)
  {
    hide Regular, DistinctSlots, Pass, EntryAt, Read64, Rule.Value, Target;
    TableInside(m, table, n, Hooks(native));
    HookIsTarget(native, k, EntryAt(m, table, k));
    EntriesHold(m, table, n, Hooks(native), k);
  }

  lemma HookIsTarget(native: int -> Option<Word64>, k: nat, e: Rela)
    requires k < 0x8000_0000 && Hooks(native).Value(k, e).Some?
    ensures Hooks(native).Value(k, e) == Some(Target(native, k))
    ensures native(k) == None ==> Target(native, k) == HOOKS + k
  {
  }
}
