/** The relocation tables as bytes: what an entry of the ELF format stores, without the reader of entries. */
module RelocationBytes {

  import opened Options
  import opened ByteImage
  import opened ElfRelocation
  import Rebasing

  /** The four fields of a table entry as the ELF format lays them out. */
  datatype Fields = Fields(offset: Word64, kind: nat, symbol: nat, addend: Word64)
  {
    predicate Valid() { kind < 0x1_0000_0000 && symbol < 0x1_0000_0000 }

    function Bytes(): (s: seq<Byte>)
      ensures |s| == 24
    {
      ToBytes(offset, 8) + ToBytes(kind, 4) + ToBytes(symbol, 4) + ToBytes(addend, 8)
    }
  }

  /** The bytes of a table. */
  function TableBytes(es: seq<Fields>): (s: seq<Byte>)
    ensures |s| == 24 * |es|
  {
    if |es| == 0 then [] else TableBytes(es[..|es| - 1]) + es[|es| - 1].Bytes()
  }

  ghost predicate TableAt(m: seq<Byte>, table: nat, es: seq<Fields>) {
    table + 24 * |es| <= |m| && m[table..table + 24 * |es|] == TableBytes(es) &&
    forall k | 0 <= k < |es| :: es[k].Valid()
  }

  lemma {:induction false} EntryBytes(es: seq<Fields>, k: nat)
    requires k < |es|
    ensures TableBytes(es)[24 * k..24 * k + 24] == es[k].Bytes()
  {
    hide Fields.Bytes;
    var n := |es| - 1;
    if k < n {
      EntryBytes(es[..n], k);
      assert TableBytes(es)[24 * k..24 * k + 24] == TableBytes(es[..n])[24 * k..24 * k + 24];
    }
  }

  lemma TwoHalves(low: seq<Byte>, high: seq<Byte>)
    requires |low| == 4 && |high| == 4
    ensures FromBytes(low + high) == FromBytes(low) + 0x1_0000_0000 * FromBytes(high)
  {
    var s := low + high;
    assert s[1..] == low[1..] + high && s[1..][1..] == low[2..] + high;
    assert s[1..][1..][1..] == low[3..] + high && s[1..][1..][1..][1..] == high;
    assert low[1..][1..] == low[2..] && low[1..][1..][1..] == low[3..] && low[1..][1..][1..][1..] == [];
    assert FromBytes(low[3..] + high) == low[3] + 256 * FromBytes(high);
    assert FromBytes(low[2..] + high) == low[2] + 256 * FromBytes(low[3..] + high);
    assert FromBytes(low[1..] + high) == low[1] + 256 * FromBytes(low[2..] + high);
    assert FromBytes(low[3..]) == low[3];
    assert FromBytes(low[2..]) == low[2] + 256 * FromBytes(low[3..]);
    assert FromBytes(low[1..]) == low[1] + 256 * FromBytes(low[2..]);
  }

  lemma SliceOfSlice(s: seq<Byte>, a: nat, b: nat, c: nat, d: nat)
    requires a <= b <= |s| && c <= d <= b - a
    ensures s[a..b][c..d] == s[a + c..a + d]
  {
    var outer := s[a..b];
    forall k | 0 <= k < d - c
      ensures outer[c..d][k] == s[a + c..a + d][k]
    {
      assert outer[c..d][k] == outer[c + k];
      assert outer[c + k] == s[a + (c + k)];
    }
  }

  lemma Words(a: seq<Byte>, b: seq<Byte>, c: seq<Byte>, d: seq<Byte>)
    requires |a| == 8 && |b| == 4 && |c| == 4 && |d| == 8
    ensures var s := a + b + c + d;
            s[0..8] == a && s[8..16] == b + c && s[16..24] == d
  {
  }

  /** The three words of an entry. */
  lemma EntryWords(m: seq<Byte>, table: nat, es: seq<Fields>, k: nat)
    requires TableAt(m, table, es) && k < |es|
    ensures var f, at := es[k], table + 24 * k;
            && m[at..at + 8] == ToBytes(f.offset, 8)
            && m[at + 8..at + 16] == ToBytes(f.kind, 4) + ToBytes(f.symbol, 4)
            && m[at + 16..at + 24] == ToBytes(f.addend, 8)
  {
    hide ToBytes, TableBytes;
    var f, at := es[k], table + 24 * k;
    EntryBytes(es, k);
    SliceOfSlice(m, table, table + 24 * |es|, 24 * k, 24 * k + 24);
    Words(ToBytes(f.offset, 8), ToBytes(f.kind, 4), ToBytes(f.symbol, 4), ToBytes(f.addend, 8));
    SliceOfSlice(m, at, at + 24, 0, 8);
    SliceOfSlice(m, at, at + 24, 8, 16);
    SliceOfSlice(m, at, at + 24, 16, 24);
  }

  /** Reading an entry from its bytes: offset, kind in the low half of the second word, symbol in the high one, addend.
      */
  lemma ReadsFields(m: seq<Byte>, table: nat, es: seq<Fields>, k: nat)
    requires TableAt(m, table, es) && k < |es|
    ensures var e := EntryAt(m, table, k);
            e.offset == es[k].offset && e.addend == es[k].addend && e.Type() == es[k].kind && e.Symbol() == es[k].symbol
  {
    hide FromBytes, ToBytes;
    var f, at := es[k], table + 24 * k;
    EntryWords(m, table, es, k);
    EightBytes();
    FourBytes();
    FromToBytes(f.offset, 8);
    FromToBytes(f.addend, 8);
    FromToBytes(f.kind, 4);
    FromToBytes(f.symbol, 4);
    TwoHalves(ToBytes(f.kind, 4), ToBytes(f.symbol, 4));
    SplitInfo(f.kind, f.symbol);
  }

  lemma SplitInfo(low: nat, high: nat)
    requires low < 0x1_0000_0000
    ensures (low + 0x1_0000_0000 * high) % 0x1_0000_0000 == low && (low + 0x1_0000_0000 * high) / 0x1_0000_0000 == high
  {
  }

  lemma FourBytes()
    ensures Power256(4) == 0x1_0000_0000
  {
    assert Power256(2) == 0x1_0000;
  }

  // ---- What the entries of DT_RELA store ----

  /** The entries that store something: kind 8 always, kinds 6 and 1 when there is an address for the symbol. */
  function Storing(es: seq<Fields>, symbol: nat -> Option<Word64>): set<nat> {
    set k: nat | k < |es| && (es[k].kind == 8 || ((es[k].kind == 6 || es[k].kind == 1) && symbol(k).Some?))
  }

  /** The slots of those entries are in the image, off the table, and apart from each other. */
  ghost predicate SlotsFree(m: seq<Byte>, table: nat, es: seq<Fields>, used: set<nat>) {
    (forall k | 0 <= k < |es| && k in used :: SlotFree(m, table, es, k)) &&
    (forall j, k | 0 <= j < k < |es| && j in used && k in used :: Apart(es[j].offset, es[k].offset))
  }

  predicate SlotFree(m: seq<Byte>, table: nat, es: seq<Fields>, k: nat)
    requires k < |es|
  {
    var at := es[k].offset;
    SlotIn(m, at) && (at + 8 <= table || table + 24 * |es| <= at)
  }

  lemma FieldsAreRegular(m: seq<Byte>, table: nat, es: seq<Fields>, rule: Rule, used: set<nat>)
    requires TableAt(m, table, es) && SlotsFree(m, table, es, used)
    requires forall k: nat | k < |es| :: rule.Value(k, EntryAt(m, table, k)).Some? ==> k in used
    ensures Regular(m, table, |es|, rule) && Rebasing.DistinctSlots(m, table, |es|, rule)
  {
    hide EntryAt, Rule.Value;
    forall k: nat | k < |es|
      ensures EntryAt(m, table, k).offset == es[k].offset
    {
      ReadsFields(m, table, es, k);
    }
    forall k: nat | k < |es|
      ensures RegularEntry(m, table, |es|, k, rule)
    {
      assert k in used ==> SlotFree(m, table, es, k);
    }
    forall j: nat, k: nat | j < k < |es|
      ensures Rebasing.SlotsApart(m, table, |es|, j, k, rule)
    {
    }
  }

  /** A slot that reads v consists of v's bytes. */
  lemma SlotBytes(m: seq<Byte>, at: int)
    requires SlotIn(m, at)
    ensures m[at..at + 8] == ToBytes(Read64(m, at), 8)
  {
    ToFromBytes(m[at..at + 8]);
  }

  /** What an entry of each kind stores, from its fields. */
  lemma KindValues(m: seq<Byte>, table: nat, es: seq<Fields>, base: Word64, symbol: nat -> Option<Word64>, k: nat)
    requires TableAt(m, table, es) && k < |es|
    ensures var v := Addresses(base, symbol).Value(k, EntryAt(m, table, k));
            && (es[k].kind == 8 ==> v == Some((base + es[k].addend) % 0x1_0000_0000_0000_0000))
            && (es[k].kind == 6 ==> v == symbol(k))
            && (es[k].kind == 1 && symbol(k).Some? ==>
                  v == Some((symbol(k).value + es[k].addend) % 0x1_0000_0000_0000_0000))
            && (k !in Storing(es, symbol) ==> v == None)
  {
    hide EntryAt;
    ReadsFields(m, table, es, k);
  }

  /** The pass leaves the value's bytes in the slot of an entry that stores. */
  lemma SlotAfterPass(m: seq<Byte>, table: nat, es: seq<Fields>, rule: Rule, k: nat, v: Word64)
    requires TableAt(m, table, es) && k < |es|
    requires Regular(m, table, |es|, rule) && Rebasing.DistinctSlots(m, table, |es|, rule)
    requires rule.Value(k, EntryAt(m, table, k)) == Some(v)
    ensures var r := Pass(m, table, |es|, rule);
            r.Some? && es[k].offset + 8 <= |m| && r.value[es[k].offset..es[k].offset + 8] == ToBytes(v, 8)
  {
    hide EntryAt, Rule.Value, Pass, Regular, Read64;
    ReadsFields(m, table, es, k);
    Rebasing.EntriesHold(m, table, |es|, rule, k);
    SlotBytes(Pass(m, table, |es|, rule).value, es[k].offset);
  }

  /** The bytes after the pass over a DT_RELA table.  Kind 8 stores base + addend, kind 6 the symbol's address, kind 1
      the address + addend, each modulo 2^64 and lowest byte first. */
  lemma RelaFromBytes(m: seq<Byte>, table: nat, es: seq<Fields>, base: Word64, symbol: nat -> Option<Word64>, k: nat)
    requires TableAt(m, table, es) && SlotsFree(m, table, es, Storing(es, symbol)) && k < |es|
    ensures var r := Pass(m, table, |es|, Addresses(base, symbol));
            var at, addend := es[k].offset, es[k].addend;
            && r.Some?
            && (es[k].kind == 8 ==>
                  at + 8 <= |m| && r.value[at..at + 8] == ToBytes((base + addend) % 0x1_0000_0000_0000_0000, 8))
            && (es[k].kind == 6 && symbol(k).Some? ==>
                  at + 8 <= |m| && r.value[at..at + 8] == ToBytes(symbol(k).value, 8))
            && (es[k].kind == 1 && symbol(k).Some? ==>
                  at + 8 <= |m| &&
                  r.value[at..at + 8] == ToBytes((symbol(k).value + addend) % 0x1_0000_0000_0000_0000, 8))
  {
    hide EntryAt, Rule.Value, Pass, Regular, Rebasing.DistinctSlots, ToBytes, Storing, SlotsFree;
    var rule := Addresses(base, symbol);
    AddressesRegular(m, table, es, base, symbol);
    PassFinishes(m, table, es, rule);
    KindValues(m, table, es, base, symbol, k);
    var v := rule.Value(k, EntryAt(m, table, k));
    if v.Some? {
      SlotAfterPass(m, table, es, rule, k, v.value);
    }
  }

  lemma AddressesRegular(m: seq<Byte>, table: nat, es: seq<Fields>, base: Word64, symbol: nat -> Option<Word64>)
    requires TableAt(m, table, es) && SlotsFree(m, table, es, Storing(es, symbol))
    ensures Regular(m, table, |es|, Addresses(base, symbol))
    ensures Rebasing.DistinctSlots(m, table, |es|, Addresses(base, symbol))
  {
    hide EntryAt, Rule.Value, Regular, Rebasing.DistinctSlots, SlotsFree, Storing;
    forall k: nat | k < |es|
      ensures Addresses(base, symbol).Value(k, EntryAt(m, table, k)).Some? ==> k in Storing(es, symbol)
    {
      KindValues(m, table, es, base, symbol, k);
    }
    FieldsAreRegular(m, table, es, Addresses(base, symbol), Storing(es, symbol));
  }

  lemma PassFinishes(m: seq<Byte>, table: nat, es: seq<Fields>, rule: Rule)
    requires Regular(m, table, |es|, rule)
    ensures Pass(m, table, |es|, rule).Some?
  {
    PassIsStores(m, table, |es|, |es|, rule);
  }

  /** Every other byte stays: entries of other kinds, and of symbols without an address, store nothing. */
  lemma RelaSpares(m: seq<Byte>, table: nat, es: seq<Fields>, base: Word64, symbol: nat -> Option<Word64>, i: nat)
    requires TableAt(m, table, es) && SlotsFree(m, table, es, Storing(es, symbol)) && i < |m|
    requires forall k | 0 <= k < |es| && k in Storing(es, symbol) :: !(es[k].offset <= i < es[k].offset + 8)
    ensures var r := Pass(m, table, |es|, Addresses(base, symbol));
            r.Some? && r.value[i] == m[i]
  {
    hide EntryAt, Rule.Value, Pass, Regular, Rebasing.DistinctSlots, Storing, SlotsFree;
    var rule := Addresses(base, symbol);
    AddressesRegular(m, table, es, base, symbol);
    forall k: nat | k < |es|
      ensures Rebasing.OffSlot(m, table, |es|, k, rule, i)
    {
      KindValues(m, table, es, base, symbol, k);
      ReadsFields(m, table, es, k);
    }
    Rebasing.PassFrame(m, table, |es|, rule, i);
  }

  // ---- What the jump slots hold ----

  /** The entries that are hooked: kind 7 with a symbol. */
  function Hooking(es: seq<Fields>): set<nat> {
    set k: nat | k < |es| && es[k].kind == 7 && es[k].symbol > 0
  }

  lemma HookValues(m: seq<Byte>, table: nat, es: seq<Fields>, native: int -> Option<Word64>, k: nat)
    requires TableAt(m, table, es) && k < |es| <= 0x8000_0000
    ensures var v := Hooks(native).Value(k, EntryAt(m, table, k));
            if k !in Hooking(es) then v == None
            else if native(k).Some? then v == native(k)
            else v == Some(0x100_0000_0000 + k)
  {
    hide EntryAt;
    ReadsFields(m, table, es, k);
  }

  /** The bytes after the pass over the jump slots: a native function's address, or 0x10000000000 + k. */
  lemma HooksFromBytes(m: seq<Byte>, table: nat, es: seq<Fields>, native: int -> Option<Word64>, k: nat)
    requires TableAt(m, table, es) && SlotsFree(m, table, es, Hooking(es)) && k < |es| <= 0x8000_0000
    ensures var r := Pass(m, table, |es|, Hooks(native));
            var at := es[k].offset;
            && r.Some?
            && (es[k].kind == 7 && es[k].symbol > 0 ==>
                  at + 8 <= |m| &&
                  r.value[at..at + 8] ==
                    ToBytes(if native(k).Some? then native(k).value else 0x100_0000_0000 + k, 8))
  {
    hide EntryAt, Rule.Value, Pass, Regular, Rebasing.DistinctSlots, ToBytes, SlotsFree;
    var rule := Hooks(native);
    HooksRegular(m, table, es, native);
    PassFinishes(m, table, es, rule);
    HookValues(m, table, es, native, k);
    var v := rule.Value(k, EntryAt(m, table, k));
    if v.Some? {
      SlotAfterPass(m, table, es, rule, k, v.value);
    }
  }

  lemma HooksRegular(m: seq<Byte>, table: nat, es: seq<Fields>, native: int -> Option<Word64>)
    requires TableAt(m, table, es) && SlotsFree(m, table, es, Hooking(es)) && |es| <= 0x8000_0000
    ensures Regular(m, table, |es|, Hooks(native)) && Rebasing.DistinctSlots(m, table, |es|, Hooks(native))
  {
    hide EntryAt, Rule.Value, Regular, Rebasing.DistinctSlots, SlotsFree, Hooking;
    forall k: nat | k < |es|
      ensures Hooks(native).Value(k, EntryAt(m, table, k)).Some? ==> k in Hooking(es)
    {
      HookValues(m, table, es, native, k);
    }
    FieldsAreRegular(m, table, es, Hooks(native), Hooking(es));
  }

  /** Every other byte stays. */
  lemma HooksSpare(m: seq<Byte>, table: nat, es: seq<Fields>, native: int -> Option<Word64>, i: nat)
    requires TableAt(m, table, es) && SlotsFree(m, table, es, Hooking(es)) && i < |m| && |es| <= 0x8000_0000
    requires forall k | 0 <= k < |es| && k in Hooking(es) :: !(es[k].offset <= i < es[k].offset + 8)
    ensures var r := Pass(m, table, |es|, Hooks(native));
            r.Some? && r.value[i] == m[i]
  {
    hide EntryAt, Rule.Value, Pass, Regular, Rebasing.DistinctSlots, Hooking, SlotsFree;
    HooksRegular(m, table, es, native);
    forall k: nat | k < |es|
      ensures Rebasing.OffSlot(m, table, |es|, k, Hooks(native), i)
    {
      HookValues(m, table, es, native, k);
      ReadsFields(m, table, es, k);
    }
    Rebasing.PassFrame(m, table, |es|, Hooks(native), i);
  }
}
