/** Relocation of the image in place: the tables' entries, and the scan that stands in for a lost table. */
module ElfRelocation {

  import opened Options
  import opened ByteImage
  import opened ElfSegments

  const R_X86_64_64: nat := 1
  const R_X86_64_GLOB_DAT: nat := 6
  const R_X86_64_JUMP_SLOT: nat := 7
  const R_X86_64_RELATIVE: nat := 8

  /** The first address of the region that no program maps: a hooked import k points to HOOKS + k. */
  const HOOKS: nat := 0x100_0000_0000

  datatype Rela = Rela(offset: Word64, info: Word64, addend: Word64)
  {
    function Type(): nat { info % 0x1_0000_0000 }

    function Symbol(): nat { info / 0x1_0000_0000 }
  }

  predicate EntryIn(m: seq<Byte>, table: nat, k: nat) {
    table + 24 * k + 24 <= |m|
  }

  function EntryAt(m: seq<Byte>, table: nat, k: nat): Rela
    requires EntryIn(m, table, k)
  {
    var at := table + 24 * k;
    Rela(Read64(m, at), Read64(m, at + 8), Read64(m, at + 16))
  }

  // ---- What an entry stores ----

  function AsInt32(k: nat): int {
    var low := k % 0x1_0000_0000;
    if low >= 0x8000_0000 then low - 0x1_0000_0000 else low
  }

  /** Where the import with index k goes: to its native function, if there is one, else into the hook region. */
  function Target(native: int -> Option<Word64>, k: int): Word64 {
    match native(k)
    case Some(f) => f
    case None => Wrap(HOOKS + k)
  }

  /** What the two tables store: addresses of the loaded program, or where imports go. */
  datatype Rule =
    | Addresses(base: Word64, symbol: nat -> Option<Word64>)
    | Hooks(native: int -> Option<Word64>)
  {
    /** The value that entry k stores, if any.  For DT_RELA these are the formulas B + A, S and S + A of section 4.4.1
        of the AMD64 supplement; S is the address found for entry k's symbol, and addends are in two's complement. */
    function Value(k: nat, e: Rela): Option<Word64> {
      match this
      case Addresses(base, symbol) =>
        if e.Type() == R_X86_64_RELATIVE then Some(Wrap(base + e.addend))
        else if e.Type() == R_X86_64_GLOB_DAT then symbol(k)
        else if e.Type() == R_X86_64_64 && symbol(k).Some? then Some(Wrap(symbol(k).value + e.addend))
        else None
      case Hooks(native) =>
        if e.Type() == R_X86_64_JUMP_SLOT && e.Symbol() > 0 then
          Some(if native(AsInt32(k)).Some? then native(AsInt32(k)).value else Wrap(HOOKS + k))
        else None
    }
  }

  // ---- A pass over a table that lies in the image itself ----

  /** The image after the first n entries, each read as the earlier ones left it;
      None when an entry or its slot lies outside the image. */
  function Pass(m: seq<Byte>, table: nat, n: nat, rule: Rule): (r: Option<seq<Byte>>)
    ensures r.Some? ==> |r.value| == |m|
    decreases n
  {
    if n == 0 then Some(m)
    else
      match Pass(m, table, n - 1, rule)
      case None => None
      case Some(before) => Entry(before, table, n - 1, rule)
  }

  /** The image after entry k. */
  function Entry(m: seq<Byte>, table: nat, k: nat, rule: Rule): (r: Option<seq<Byte>>)
    ensures r.Some? ==> |r.value| == |m|
  {
    if !EntryIn(m, table, k) then None
    else
      var e := EntryAt(m, table, k);
      match rule.Value(k, e)
      case None => Some(m)
      case Some(v) => if SlotIn(m, e.offset) then Some(Write64(m, e.offset, v)) else None
  }

  method RelocateEntry(img: array<Byte>, table: nat, k: nat, base: Word64,
                       symbol: nat -> Option<Word64>) returns (ok: bool)
    modifies img
    ensures var result := Entry(old(img[..]), table, k, Addresses(base, symbol));
            ok == result.Some? && (ok ==> img[..] == result.value)
  {
    hide EntryAt, Write64;
    if table + 24 * k + 24 > img.Length {
      return false;
    }
    var e := EntryAt(img[..], table, k);
    var stored := None;
    if e.Type() == R_X86_64_RELATIVE {
      stored := Some(Wrap(base + e.addend));
    } else if e.Type() == R_X86_64_GLOB_DAT {
      stored := symbol(k);
    } else if e.Type() == R_X86_64_64 {
      var s := symbol(k);
      if s.Some? {
        stored := Some(Wrap(s.value + e.addend));
      }
    }
    if stored.Some? {
      if e.offset + 8 > img.Length {
        return false;
      }
      Store64(img, e.offset, stored.value);
    }
    return true;
  }

  method HookEntry(img: array<Byte>, table: nat, k: nat, native: int -> Option<Word64>) returns (ok: bool)
    modifies img
    ensures var result := Entry(old(img[..]), table, k, Hooks(native));
            ok == result.Some? && (ok ==> img[..] == result.value)
  {
    hide EntryAt, Write64;
    if table + 24 * k + 24 > img.Length {
      return false;
    }
    var e := EntryAt(img[..], table, k);
    if e.Type() == R_X86_64_JUMP_SLOT && e.Symbol() > 0 {
      var target := Wrap(HOOKS + k);
      var found := native(AsInt32(k));
      if found.Some? {
        target := found.value;
      }
      if e.offset + 8 > img.Length {
        return false;
      }
      Store64(img, e.offset, target);
    }
    return true;
  }

  method RelocateRela(img: array<Byte>, table: nat, size: nat, entrySize: nat, base: Word64,
                      symbol: nat -> Option<Word64>)
    returns (ok: bool)
    requires entrySize > 0
    modifies img
    ensures var result := Pass(old(img[..]), table, size / entrySize, Addresses(base, symbol));
            ok == result.Some? && (ok ==> img[..] == result.value)
  {
    hide Entry;
    ghost var m, rule := img[..], Addresses(base, symbol);
    ok := true;
    var k := 0;
    while k < size / entrySize
      invariant 0 <= k <= size / entrySize
      invariant Pass(m, table, k, rule) == Some(img[..]) && ok
    {
      ok := RelocateEntry(img, table, k, base, symbol);
      if !ok {
        PassFails(m, table, k + 1, size / entrySize, rule);
        return;
      }
      k := k + 1;
    }
  }

  method HookJumpSlots(img: array<Byte>, table: nat, size: nat, entrySize: nat, native: int -> Option<Word64>)
    returns (ok: bool)
    requires entrySize > 0
    modifies img
    ensures var result := Pass(old(img[..]), table, size / entrySize, Hooks(native));
            ok == result.Some? && (ok ==> img[..] == result.value)
  {
    hide Entry;
    ghost var m, rule := img[..], Hooks(native);
    ok := true;
    var k := 0;
    while k < size / entrySize
      invariant 0 <= k <= size / entrySize
      invariant Pass(m, table, k, rule) == Some(img[..]) && ok
    {
      ok := HookEntry(img, table, k, native);
      if !ok {
        PassFails(m, table, k + 1, size / entrySize, rule);
        return;
      }
      k := k + 1;
    }
  }

  lemma {:induction false} PassFails(m: seq<Byte>, table: nat, n: nat, all: nat, rule: Rule)
    requires n <= all && Pass(m, table, n, rule) == None
    ensures Pass(m, table, all, rule) == None
    decreases all
  {
    hide Entry;
    if n < all {
      PassFails(m, table, n, all - 1, rule);
    }
  }

  // ---- Slots apart from the table: the pass is a list of stores ----

  /** Every one of the first n entries lies in the image, and its slot too, outside the table. */
  ghost predicate Regular(m: seq<Byte>, table: nat, n: nat, rule: Rule) {
    table + 24 * n <= |m| &&
    forall k: nat | k < n :: RegularEntry(m, table, n, k, rule)
  }

  predicate RegularEntry(m: seq<Byte>, table: nat, n: nat, k: nat, rule: Rule)
    requires k < n && table + 24 * n <= |m|
  {
    var e := EntryAt(m, table, k);
    rule.Value(k, e).Some? ==>
      SlotIn(m, e.offset) && (e.offset + 8 <= table || table + 24 * n <= e.offset)
  }

  lemma RegularAt(m: seq<Byte>, table: nat, n: nat, k: nat, rule: Rule)
    requires Regular(m, table, n, rule) && k < n
    ensures RegularEntry(m, table, n, k, rule)
  {
  }

  /** The stores of the entries as they are in m. */
  function Stores(m: seq<Byte>, table: nat, n: nat, rule: Rule): (s: seq<Store>)
    requires table + 24 * n <= |m|
  {
    if n == 0 then []
    else
      var e := EntryAt(m, table, n - 1);
      var before := Stores(m, table, n - 1, rule);
      match rule.Value(n - 1, e)
      case None => before
      case Some(v) => before + [Store(e.offset, v)]
  }

  /** Each store comes from an entry. */
  lemma {:induction false} StoreHasEntry(m: seq<Byte>, table: nat, n: nat, rule: Rule, j: nat)
    returns (k: nat)
    requires table + 24 * n <= |m| && j < |Stores(m, table, n, rule)|
    ensures k < n
    ensures var e := EntryAt(m, table, k);
            rule.Value(k, e) == Some(Stores(m, table, n, rule)[j].value) && Stores(m, table, n, rule)[j].at == e.offset
  {
    if j < |Stores(m, table, n - 1, rule)| {
      k := StoreHasEntry(m, table, n - 1, rule, j);
    } else {
      k := n - 1;
    }
  }

  /** Each entry that stores has its store. */
  lemma {:induction false} EntryHasStore(m: seq<Byte>, table: nat, n: nat, rule: Rule, k: nat)
    returns (j: nat)
    requires table + 24 * n <= |m| && k < n && rule.Value(k, EntryAt(m, table, k)).Some?
    ensures j < |Stores(m, table, n, rule)|
    ensures Stores(m, table, n, rule)[j] ==
            Store(EntryAt(m, table, k).offset, rule.Value(k, EntryAt(m, table, k)).value)
  {
    if k == n - 1 {
      j := |Stores(m, table, n - 1, rule)|;
    } else {
      j := EntryHasStore(m, table, n - 1, rule, k);
    }
  }

  predicate OffTable(stores: seq<Store>, table: nat, all: nat) {
    forall j | 0 <= j < |stores| :: stores[j].at + 8 <= table || table + 24 * all <= stores[j].at
  }

  /** The stores of a regular table stay in the image and off the table. */
  lemma RegularStores(m: seq<Byte>, table: nat, all: nat, n: nat, rule: Rule)
    requires Regular(m, table, all, rule) && n <= all
    ensures StoresIn(m, Stores(m, table, n, rule)) && OffTable(Stores(m, table, n, rule), table, all)
  {
    forall j | 0 <= j < |Stores(m, table, n, rule)|
      ensures var at := Stores(m, table, n, rule)[j].at;
              SlotIn(m, at) && (at + 8 <= table || table + 24 * all <= at)
    {
      var k := StoreHasEntry(m, table, n, rule, j);
      assert RegularEntry(m, table, all, k, rule);
    }
  }

  /** Off-table stores leave the entries as they are. */
  lemma EntryKept(m: seq<Byte>, stores: seq<Store>, table: nat, all: nat, k: nat)
    requires table + 24 * all <= |m| && k < all
    requires StoresIn(m, stores) && OffTable(stores, table, all)
    ensures EntryAt(StoreAll(m, stores), table, k) == EntryAt(m, table, k)
  {
    var at := table + 24 * k;
    StoresElsewhere(m, stores, at);
    StoresElsewhere(m, stores, at + 8);
    StoresElsewhere(m, stores, at + 16);
  }

  /** An entry that reads as it did in m makes its store. */
  lemma EntryStep(m: seq<Byte>, stores: seq<Store>, table: nat, all: nat, k: nat, rule: Rule)
    requires Regular(m, table, all, rule) && k < all
    requires StoresIn(m, stores) && OffTable(stores, table, all)
    requires Stores(m, table, k, rule) == stores && StoresIn(m, Stores(m, table, k + 1, rule))
    ensures Entry(StoreAll(m, stores), table, k, rule) == Some(StoreAll(m, Stores(m, table, k + 1, rule)))
  {
    hide EntryAt, Write64, StoreAll, OffTable;
    var e := EntryAt(m, table, k);
    EntryKept(m, stores, table, all, k);
    assert RegularEntry(m, table, all, k, rule);
    if rule.Value(k, e).Some? {
      StoreLast(m, stores, Store(e.offset, rule.Value(k, e).value));
    }
  }

  /** Over a regular table, reading entries as the pass goes is the same as reading them all beforehand. */
  lemma {:induction false} PassIsStores(m: seq<Byte>, table: nat, all: nat, n: nat, rule: Rule)
    requires Regular(m, table, all, rule) && n <= all
    ensures StoresIn(m, Stores(m, table, n, rule))
    ensures Pass(m, table, n, rule) == Some(StoreAll(m, Stores(m, table, n, rule)))
  {
    hide Entry, EntryAt, RegularEntry, StoresIn, OffTable;
    RegularStores(m, table, all, n, rule);
    if n == 0 {
      NoStores(m);
    } else {
      PassIsStores(m, table, all, n - 1, rule);
      PassStep(m, table, all, n - 1, rule);
    }
  }

  lemma PassStep(m: seq<Byte>, table: nat, all: nat, n: nat, rule: Rule)
    requires Regular(m, table, all, rule) && n < all && StoresIn(m, Stores(m, table, n, rule))
    requires Pass(m, table, n, rule) == Some(StoreAll(m, Stores(m, table, n, rule)))
    ensures StoresIn(m, Stores(m, table, n + 1, rule))
    ensures Pass(m, table, n + 1, rule) == Some(StoreAll(m, Stores(m, table, n + 1, rule)))
  {
    hide Entry, StoreAll, StoresIn, OffTable, RegularEntry, Stores;
    RegularStores(m, table, all, n, rule);
    RegularStores(m, table, all, n + 1, rule);
    EntryStep(m, Stores(m, table, n, rule), table, all, n, rule);
  }
}
