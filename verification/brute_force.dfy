/** Relocation without a table: every aligned word of writable data that looks like an address gets the base added. */
module BruteForce {

  import opened ByteImage
  import opened ElfSegments

  /** v falls into a loaded segment and is no small number. */
  predicate LooksLikeAddress(phdrs: seq<Phdr>, end: nat, v: Word64) {
    0x1000 <= v < end && exists k | 0 <= k < |phdrs| :: InSegment(phdrs[k], v)
  }

  predicate InSegment(h: Phdr, v: Word64) {
    h.IsLoad() && h.vaddr <= v < h.vaddr + h.memsz
  }

  function Relocated(phdrs: seq<Phdr>, end: nat, base: Word64, v: Word64): Word64 {
    if LooksLikeAddress(phdrs, end, v) then Wrap(v + base) else v
  }

  /** The segments that are scanned: loaded, writable, not executable. */
  predicate Scanned(h: Phdr) {
    h.IsLoad() && !h.Executable() && h.Writable()
  }

  // ---- The slots of the scan ----

  /** The first n words of a segment. */
  function Words(vaddr: nat, n: nat): (s: seq<nat>)
    ensures |s| == n && forall j | 0 <= j < n :: s[j] == vaddr + 8 * j
  {
    seq(n, j requires 0 <= j => vaddr + 8 * j)
  }

  /** Every word of the scanned segments among the first n. */
  function Slots(phdrs: seq<Phdr>, n: nat): seq<nat>
    requires n <= |phdrs|
  {
    if n == 0 then []
    else Slots(phdrs, n - 1) + if Scanned(phdrs[n - 1]) then Words(phdrs[n - 1].vaddr, phdrs[n - 1].memsz / 8) else []
  }

  predicate SlotsIn(m: seq<Byte>, slots: seq<nat>) {
    forall k | 0 <= k < |slots| :: SlotIn(m, slots[k])
  }

  predicate AllApart(slots: seq<nat>) {
    forall j, k | 0 <= j < k < |slots| :: Apart(slots[j], slots[k])
  }

  /** The loaded segments are inside the image, which ends where the last of them does. */
  predicate InImage(phdrs: seq<Phdr>, size: nat) {
    size <= TWO64 && forall k | 0 <= k < |phdrs| && phdrs[k].IsLoad() :: phdrs[k].vaddr + phdrs[k].memsz <= size
  }

  predicate Separate(phdrs: seq<Phdr>) {
    forall j, k | 0 <= j < k < |phdrs| && phdrs[j].IsLoad() && phdrs[k].IsLoad() ::
      phdrs[j].vaddr + phdrs[j].memsz <= phdrs[k].vaddr || phdrs[k].vaddr + phdrs[k].memsz <= phdrs[j].vaddr
  }

  /** A slot is a word of one of the scanned segments. */
  lemma {:induction false} SlotOrigin(phdrs: seq<Phdr>, n: nat, i: nat) returns (k: nat)
    requires n <= |phdrs| && i < |Slots(phdrs, n)|
    ensures k < n && Scanned(phdrs[k])
    ensures phdrs[k].vaddr <= Slots(phdrs, n)[i] && Slots(phdrs, n)[i] + 8 <= phdrs[k].vaddr + phdrs[k].memsz
    ensures (Slots(phdrs, n)[i] - phdrs[k].vaddr) % 8 == 0
  {
    if i < |Slots(phdrs, n - 1)| {
      k := SlotOrigin(phdrs, n - 1, i);
    } else {
      k := n - 1;
    }
  }

  /** Every word of a scanned segment is a slot. */
  lemma {:induction false} WordIsSlot(phdrs: seq<Phdr>, n: nat, k: nat, j: nat) returns (i: nat)
    requires k < n <= |phdrs| && Scanned(phdrs[k]) && 8 * j + 8 <= phdrs[k].memsz
    ensures i < |Slots(phdrs, n)| && Slots(phdrs, n)[i] == phdrs[k].vaddr + 8 * j
  {
    if k == n - 1 {
      i := |Slots(phdrs, n - 1)| + j;
    } else {
      i := WordIsSlot(phdrs, n - 1, k, j);
    }
  }

  lemma SlotsInImage(phdrs: seq<Phdr>, n: nat, m: seq<Byte>)
    requires n <= |phdrs| && InImage(phdrs, |m|)
    ensures SlotsIn(m, Slots(phdrs, n))
  {
    forall i | 0 <= i < |Slots(phdrs, n)|
      ensures SlotIn(m, Slots(phdrs, n)[i])
    {
      var k := SlotOrigin(phdrs, n, i);
    }
  }

  /** Disjoint segments have their words apart. */
  lemma {:induction false} SlotsApart(phdrs: seq<Phdr>, n: nat)
    requires n <= |phdrs| && Separate(phdrs)
    ensures AllApart(Slots(phdrs, n))
  {
    if n > 0 {
      SlotsApart(phdrs, n - 1);
      var before := Slots(phdrs, n - 1);
      if Scanned(phdrs[n - 1]) {
        var words := Words(phdrs[n - 1].vaddr, phdrs[n - 1].memsz / 8);
        forall i, j | 0 <= i < |before| && 0 <= j < |words|
          ensures Apart(before[i], words[j])
        {
          var k := SlotOrigin(phdrs, n - 1, i);
        }
        ApartTogether(before, words);
      }
    }
  }

  lemma ApartTogether(a: seq<nat>, b: seq<nat>)
    requires AllApart(a) && AllApart(b) && forall i, j | 0 <= i < |a| && 0 <= j < |b| :: Apart(a[i], b[j])
    ensures AllApart(a + b)
  {
  }

  // ---- The scan ----

  datatype Rebase = Rebase(phdrs: seq<Phdr>, end: nat, base: Word64)
  {
    function Value(v: Word64): Word64 { Relocated(phdrs, end, base, v) }
  }

  /** The image after the given slots, one by one. */
  function Fixed(m: seq<Byte>, slots: seq<nat>, r: Rebase): (f: seq<Byte>)
    requires SlotsIn(m, slots)
    ensures |f| == |m|
  {
    if |slots| == 0 then m
    else
      var n := |slots| - 1;
      var before := Fixed(m, slots[..n], r);
      assert SlotIn(m, slots[n]);
      Write64(before, slots[n], r.Value(Read64(before, slots[n])))
  }

  lemma FixedLast(m: seq<Byte>, slots: seq<nat>, last: nat, r: Rebase)
    requires SlotsIn(m, slots) && SlotIn(m, last)
    ensures SlotsIn(m, slots + [last])
    ensures var before := Fixed(m, slots, r);
            Fixed(m, slots + [last], r) == Write64(before, last, r.Value(Read64(before, last)))
  {
    hide Write64, Read64, Rebase.Value;
    assert (slots + [last])[..|slots|] == slots;
  }

  /** The scan of one segment, from the image with the earlier slots done. */
  method FixSegment(img: array<Byte>, r: Rebase, h: Phdr, ghost m: seq<Byte>, ghost done: seq<nat>)
    requires h.vaddr + h.memsz <= img.Length
    requires SlotsIn(m, done) && img[..] == Fixed(m, done, r)
    modifies img
    ensures SlotsIn(m, done + Words(h.vaddr, h.memsz / 8))
    ensures img[..] == Fixed(m, done + Words(h.vaddr, h.memsz / 8), r)
  {
    hide Fixed, SlotsIn, Write64, Read64, Relocated;
    var off := 0;
    assert done + Words(h.vaddr, 0) == done;
    while off + 8 <= h.memsz
      invariant off % 8 == 0 && off <= h.memsz
      invariant SlotsIn(m, done + Words(h.vaddr, off / 8))
      invariant img[..] == Fixed(m, done + Words(h.vaddr, off / 8), r)
    {
      NextWord(done, h.vaddr, off / 8);
      FixedLast(m, done + Words(h.vaddr, off / 8), h.vaddr + off, r);
      FixWord(img, r, h.vaddr + off);
      off := off + 8;
    }
    assert off / 8 == h.memsz / 8;
  }

  lemma NextWord(done: seq<nat>, vaddr: nat, n: nat)
    ensures done + Words(vaddr, n + 1) == done + Words(vaddr, n) + [vaddr + 8 * n]
  {
  }

  method FixWord(img: array<Byte>, r: Rebase, at: nat)
    requires at + 8 <= img.Length
    modifies img
    ensures img[..] == Write64(old(img[..]), at, r.Value(Read64(old(img[..]), at)))
  {
    hide Write64, Read64;
    var val := Read64(img[..], at);
    if val < 0x1000 || val >= r.end {
      WriteSame(img[..], at);
      return;
    }
    var valid := IsValidAddress(r.phdrs, val);
    if valid {
      Store64(img, at, Wrap(val + r.base));
    } else {
      WriteSame(img[..], at);
    }
  }

  method IsValidAddress(phdrs: seq<Phdr>, val: Word64) returns (valid: bool)
    ensures valid <==> exists k | 0 <= k < |phdrs| :: InSegment(phdrs[k], val)
  {
    for k := 0 to |phdrs|
      invariant forall j | 0 <= j < k :: !InSegment(phdrs[j], val)
    {
      if phdrs[k].IsLoad() && val >= phdrs[k].vaddr && val < phdrs[k].vaddr + phdrs[k].memsz {
        assert InSegment(phdrs[k], val);
        return true;
      }
    }
    return false;
  }

  method RelocateByScan(img: array<Byte>, phdrs: seq<Phdr>, base: Word64)
    requires InImage(phdrs, img.Length)
    modifies img
    ensures SlotsIn(old(img[..]), Slots(phdrs, |phdrs|))
    ensures img[..] == Fixed(old(img[..]), Slots(phdrs, |phdrs|), Rebase(phdrs, img.Length, base))
  {
    hide Relocated, Write64, Read64;
    var r := Rebase(phdrs, img.Length, base);
    ghost var m := img[..];
    for k := 0 to |phdrs|
      invariant SlotsIn(m, Slots(phdrs, k)) && img[..] == Fixed(m, Slots(phdrs, k), r)
    {
      var h := phdrs[k];
      if h.IsLoad() && !h.Executable() && h.Writable() {
        FixSegment(img, r, h, m, Slots(phdrs, k));
      } else {
        assert Slots(phdrs, k + 1) == Slots(phdrs, k);
      }
    }
  }

  // ---- What the scan does ----

  predicate OffSlots(slots: seq<nat>, i: int) {
    forall k | 0 <= k < |slots| :: !(slots[k] <= i < slots[k] + 8)
  }

  /** Bytes outside the slots stay. */
  lemma {:induction false} FixedFrame(m: seq<Byte>, slots: seq<nat>, r: Rebase, i: int)
    requires SlotsIn(m, slots) && 0 <= i < |m| && OffSlots(slots, i)
    ensures Fixed(m, slots, r)[i] == m[i]
  {
    if |slots| > 0 {
      FixedFrame(m, slots[..|slots| - 1], r, i);
    }
  }

  lemma {:induction false} FixedElsewhere(m: seq<Byte>, slots: seq<nat>, r: Rebase, at: nat)
    requires SlotsIn(m, slots) && SlotIn(m, at) && forall k | 0 <= k < |slots| :: Apart(slots[k], at)
    ensures Read64(Fixed(m, slots, r), at) == Read64(m, at)
  {
    hide Write64, Read64, Rebase.Value;
    if |slots| > 0 {
      var n := |slots| - 1;
      FixedElsewhere(m, slots[..n], r, at);
      var before := Fixed(m, slots[..n], r);
      ReadElsewhere(before, slots[n], r.Value(Read64(before, slots[n])), at);
    }
  }

  /** Each slot is relocated once, from the value that it had before the scan. */
  lemma {:induction false} EachSlotOnce(m: seq<Byte>, slots: seq<nat>, r: Rebase, k: nat)
    requires SlotsIn(m, slots) && AllApart(slots) && k < |slots|
    ensures Read64(Fixed(m, slots, r), slots[k]) == r.Value(Read64(m, slots[k]))
  {
    hide Write64, Read64, Rebase.Value;
    var n := |slots| - 1;
    var before := Fixed(m, slots[..n], r);
    var last := r.Value(Read64(before, slots[n]));
    if k == n {
      FixedElsewhere(m, slots[..n], r, slots[n]);
      ReadBack(before, slots[n], last);
    } else {
      EachSlotOnce(m, slots[..n], r, k);
      ReadElsewhere(before, slots[n], last, slots[k]);
    }
  }

  /** A scan that finds nothing to relocate changes nothing. */
  lemma {:induction false} NothingToFix(m: seq<Byte>, slots: seq<nat>, r: Rebase)
    requires SlotsIn(m, slots) && forall k | 0 <= k < |slots| :: r.Value(Read64(m, slots[k])) == Read64(m, slots[k])
    ensures Fixed(m, slots, r) == m
  {
    hide Write64, Read64, Rebase.Value;
    if |slots| > 0 {
      var n := |slots| - 1;
      NothingToFix(m, slots[..n], r);
      assert SlotIn(m, slots[n]);
      WriteSame(m, slots[n]);
    }
  }

  /** The whole scan, word by word: over disjoint segments, the words of writable data are relocated from
      their old values, and no other byte changes. */
  lemma ScanMeaning(m: seq<Byte>, phdrs: seq<Phdr>, base: Word64, k: nat, j: nat)
    requires InImage(phdrs, |m|) && Separate(phdrs)
    requires k < |phdrs| && Scanned(phdrs[k]) && 8 * j + 8 <= phdrs[k].memsz
    ensures var slots := Slots(phdrs, |phdrs|);
            var at := phdrs[k].vaddr + 8 * j;
            SlotsIn(m, slots) &&
            Read64(Fixed(m, slots, Rebase(phdrs, |m|, base)), at) == Relocated(phdrs, |m|, base, Read64(m, at))
  {
    hide Fixed, Read64, Relocated;
    SlotsInImage(phdrs, |phdrs|, m);
    SlotsApart(phdrs, |phdrs|);
    var i := WordIsSlot(phdrs, |phdrs|, k, j);
    EachSlotOnce(m, Slots(phdrs, |phdrs|), Rebase(phdrs, |m|, base), i);
  }

  /** A second scan moves a word again exactly when the relocated word still looks like an address. */
  lemma IdempotentIff(m: seq<Byte>, slots: seq<nat>, r: Rebase)
    requires SlotsIn(m, slots) && AllApart(slots) && r.base > 0
    ensures Fixed(Fixed(m, slots, r), slots, r) == Fixed(m, slots, r) <==>
            forall k | 0 <= k < |slots| :: SettlesAt(m, slots, r, k)
  {
    hide Fixed, Read64, Write64;
    var once := Fixed(m, slots, r);
    forall k | 0 <= k < |slots|
      ensures Read64(once, slots[k]) == r.Value(Read64(m, slots[k]))
      ensures Read64(Fixed(once, slots, r), slots[k]) == r.Value(Read64(once, slots[k]))
    {
      EachSlotOnce(m, slots, r, k);
      EachSlotOnce(once, slots, r, k);
    }
    forall k | 0 <= k < |slots|
      ensures r.Value(Read64(once, slots[k])) == Read64(once, slots[k]) <==> SettlesAt(m, slots, r, k)
    {
      SettlesIff(r, Read64(m, slots[k]));
    }
    if forall k | 0 <= k < |slots| :: SettlesAt(m, slots, r, k) {
      NothingToFix(once, slots, r);
    }
  }

  /** The slot's word is no address, or none any more once the base is added. */
  predicate SettlesAt(m: seq<Byte>, slots: seq<nat>, r: Rebase, k: nat)
    requires SlotsIn(m, slots) && k < |slots|
  {
    Settles(r, Read64(m, slots[k]))
  }

  predicate Settles(r: Rebase, v: Word64) {
    LooksLikeAddress(r.phdrs, r.end, v) ==> !LooksLikeAddress(r.phdrs, r.end, Wrap(v + r.base))
  }

  lemma SettlesIff(r: Rebase, v: Word64)
    requires r.base > 0
    ensures r.Value(r.Value(v)) == r.Value(v) <==> Settles(r, v)
  {
    hide LooksLikeAddress;
    WrapMoves(v, r.base);
    WrapMoves(Wrap(v + r.base), r.base);
  }

  lemma WrapMoves(w: Word64, base: Word64)
    requires base > 0
    ensures Wrap(w + base) != w
  {
    if w + base >= TWO64 {
      assert Wrap(w + base) == w + base - TWO64;
    }
  }

  /** At a base at or above the image's end, with no sum passing 2^64, a second scan changes nothing. */
  lemma IdempotentAbove(m: seq<Byte>, phdrs: seq<Phdr>, base: Word64)
    requires InImage(phdrs, |m|) && Separate(phdrs)
    requires 0 < |m| <= base && base + |m| <= TWO64
    ensures var slots, r := Slots(phdrs, |phdrs|), Rebase(phdrs, |m|, base);
            SlotsIn(m, slots) && Fixed(Fixed(m, slots, r), slots, r) == Fixed(m, slots, r)
  {
    hide Fixed, Read64;
    SlotsInImage(phdrs, |phdrs|, m);
    SlotsApart(phdrs, |phdrs|);
    IdempotentIff(m, Slots(phdrs, |phdrs|), Rebase(phdrs, |m|, base));
  }

  // ---- A program that a second scan changes ----

  const DATA: seq<Phdr> := [Phdr(PT_LOAD, PF_W, 0, 0, 0, 0x30000)]

  /** One writable segment of 0x30000 bytes with 0x10000 in its first word.  The host hands out addresses that are
      multiples of 0x10000. */
  function Moving(): (m: seq<Byte>)
    ensures |m| == 0x30000
  {
    Write64(Zeros(0x30000), 0, 0x10000)
  }

  /** Loaded at 0x10000, the first scan makes the word 0x20000, which the second scan takes for an address again. */
  lemma SecondScanMoves()
    ensures var slots, r := Slots(DATA, 1), Rebase(DATA, 0x30000, 0x10000);
            SlotsIn(Moving(), slots) && Fixed(Fixed(Moving(), slots, r), slots, r) != Fixed(Moving(), slots, r)
  {
    hide Fixed, Slots, Write64, Read64, LooksLikeAddress, Words, Zeros;
    var m, slots, r := Moving(), Slots(DATA, 1), Rebase(DATA, 0x30000, 0x10000);
    SlotsInImage(DATA, 1, m);
    SlotsApart(DATA, 1);
    var i := WordIsSlot(DATA, 1, 0, 0);
    FirstWord();
    BothAddresses();
    assert !SettlesAt(m, slots, r, i);
    IdempotentIff(m, slots, r);
  }

  lemma FirstWord()
    ensures Read64(Moving(), 0) == 0x10000
  {
    hide Write64, Read64, Zeros;
    ReadBack(Zeros(0x30000), 0, 0x10000);
  }

  lemma BothAddresses()
    ensures LooksLikeAddress(DATA, 0x30000, 0x10000) && LooksLikeAddress(DATA, 0x30000, 0x20000) &&
            Wrap(0x10000 + 0x10000) == 0x20000
  {
    assert InSegment(DATA[0], 0x10000) && InSegment(DATA[0], 0x20000);
  }
}
