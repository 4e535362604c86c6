/** Bytes, little-endian 64-bit slots, and the stores that the loader makes into an image. */
module ByteImage {

  type Byte = x: int | 0 <= x < 256
  type Word64 = x: int | 0 <= x < 0x1_0000_0000_0000_0000

  const TWO64: int := 0x1_0000_0000_0000_0000

  /** Arithmetic of 64-bit machine words. */
  function Wrap(x: int): Word64 {
    x % TWO64
  }

  function Power256(n: nat): nat {
    if n == 0 then 1 else 256 * Power256(n - 1)
  }

  function FromBytes(s: seq<Byte>): nat {
    if |s| == 0 then 0 else s[0] + 256 * FromBytes(s[1..])
  }

  function ToBytes(v: nat, n: nat): (s: seq<Byte>)
    ensures |s| == n
  {
    if n == 0 then [] else [v % 256] + ToBytes(v / 256, n - 1)
  }

  lemma {:induction false} BytesBound(s: seq<Byte>)
    ensures FromBytes(s) < Power256(|s|)
  {
    if |s| > 0 {
      BytesBound(s[1..]);
    }
  }

  lemma {:induction false} FromToBytes(v: nat, n: nat)
    requires v < Power256(n)
    ensures FromBytes(ToBytes(v, n)) == v
  {
    if n > 0 {
      assert v / 256 < Power256(n - 1);
      FromToBytes(v / 256, n - 1);
      assert ToBytes(v, n)[1..] == ToBytes(v / 256, n - 1);
    }
  }

  lemma DivModCons(low: Byte, high: nat)
    ensures (low + 256 * high) % 256 == low && (low + 256 * high) / 256 == high
  {
  }

  lemma {:induction false} ToFromBytes(s: seq<Byte>)
    ensures ToBytes(FromBytes(s), |s|) == s
  {
    if |s| > 0 {
      ToFromBytes(s[1..]);
      DivModCons(s[0], FromBytes(s[1..]));
      assert s == [s[0]] + s[1..];
    }
  }

  lemma EightBytes()
    ensures Power256(8) == TWO64
  {
    assert Power256(2) == 65536;
    assert Power256(4) == 0x1_0000_0000 by { assert Power256(3) == 0x100_0000; }
    assert Power256(6) == 0x1_0000_0000_0000 by { assert Power256(5) == 0x100_0000_0000; }
    assert Power256(7) == 0x100_0000_0000_0000;
  }

  predicate SlotIn(m: seq<Byte>, at: int) {
    0 <= at && at + 8 <= |m|
  }

  function Read64(m: seq<Byte>, at: int): Word64
    requires SlotIn(m, at)
  {
    BytesBound(m[at..at + 8]);
    EightBytes();
    FromBytes(m[at..at + 8])
  }

  /** The image with bs written at `at`. */
  function Splice(m: seq<Byte>, at: int, bs: seq<Byte>): (r: seq<Byte>)
    requires 0 <= at && at + |bs| <= |m|
    ensures |r| == |m|
    ensures forall i | 0 <= i < |m| :: r[i] == if at <= i < at + |bs| then bs[i - at] else m[i]
  {
    m[..at] + bs + m[at + |bs|..]
  }

  function Write64(m: seq<Byte>, at: int, v: Word64): (r: seq<Byte>)
    requires SlotIn(m, at)
    ensures |r| == |m|
    ensures forall i | 0 <= i < |m| && !(at <= i < at + 8) :: r[i] == m[i]
  {
    Splice(m, at, ToBytes(v, 8))
  }

  /** Reading back a slot gives the value written to it. */
  lemma ReadBack(m: seq<Byte>, at: int, v: Word64)
    requires SlotIn(m, at)
    ensures Read64(Write64(m, at, v), at) == v
  {
    assert Write64(m, at, v)[at..at + 8] == ToBytes(v, 8);
    EightBytes();
    FromToBytes(v, 8);
  }

  predicate Apart(a: int, b: int) {
    a + 8 <= b || b + 8 <= a
  }

  lemma ReadElsewhere(m: seq<Byte>, at: int, v: Word64, other: int)
    requires SlotIn(m, at) && SlotIn(m, other) && Apart(at, other)
    ensures Read64(Write64(m, at, v), other) == Read64(m, other)
  {
    assert Write64(m, at, v)[other..other + 8] == m[other..other + 8];
  }

  /** Writing the value that a slot holds changes nothing. */
  lemma WriteSame(m: seq<Byte>, at: int)
    requires SlotIn(m, at)
    ensures Write64(m, at, Read64(m, at)) == m
  {
    ToFromBytes(m[at..at + 8]);
  }

  /** Slots that read the same hold the same bytes. */
  lemma SameSlotBytes(m: seq<Byte>, n: seq<Byte>, at: int, i: int)
    requires SlotIn(m, at) && SlotIn(n, at) && Read64(m, at) == Read64(n, at) && at <= i < at + 8
    ensures m[i] == n[i]
  {
    ToFromBytes(m[at..at + 8]);
    ToFromBytes(n[at..at + 8]);
    assert m[at..at + 8] == n[at..at + 8];
    assert m[i] == m[at..at + 8][i - at];
    assert n[i] == n[at..at + 8][i - at];
  }

  // ---- Ranges ----

  /** The two images agree on the bytes in [lo, hi). */
  ghost predicate SameRange(m: seq<Byte>, n: seq<Byte>, lo: int, hi: int) {
    |m| == |n| && forall i | lo <= i < hi && 0 <= i < |m| :: m[i] == n[i]
  }

  lemma SameItself(m: seq<Byte>, lo: int, hi: int)
    ensures SameRange(m, m, lo, hi)
  {
  }

  lemma SameRangeTrans(a: seq<Byte>, b: seq<Byte>, c: seq<Byte>, lo: int, hi: int)
    requires SameRange(a, b, lo, hi) && SameRange(b, c, lo, hi)
    ensures SameRange(a, c, lo, hi)
  {
  }

  // ---- Lists of stores ----

  datatype Store = Store(at: int, value: Word64)

  predicate StoresIn(m: seq<Byte>, stores: seq<Store>) {
    forall k | 0 <= k < |stores| :: SlotIn(m, stores[k].at)
  }

  function StoreAll(m: seq<Byte>, stores: seq<Store>): (r: seq<Byte>)
    requires StoresIn(m, stores)
    ensures |r| == |m|
  {
    if |stores| == 0 then m
    else
      var before := StoreAll(m, stores[..|stores| - 1]);
      assert SlotIn(m, stores[|stores| - 1].at);
      Write64(before, stores[|stores| - 1].at, stores[|stores| - 1].value)
  }

  lemma NoStores(m: seq<Byte>)
    ensures StoresIn(m, []) && StoreAll(m, []) == m
  {
  }

  lemma StoreLast(m: seq<Byte>, stores: seq<Store>, last: Store)
    requires SlotIn(m, last.at) && StoresIn(m, stores)
    ensures StoresIn(m, stores + [last])
    ensures StoreAll(m, stores + [last]) == Write64(StoreAll(m, stores), last.at, last.value)
  {
    hide Write64;
    assert (stores + [last])[..|stores|] == stores;
  }

  /** No store reaches byte i. */
  predicate Misses(stores: seq<Store>, i: int) {
    forall k | 0 <= k < |stores| :: !(stores[k].at <= i < stores[k].at + 8)
  }

  /** Stores change only the bytes of their slots. */
  lemma {:induction false} StoresFrame(m: seq<Byte>, stores: seq<Store>, i: int)
    requires StoresIn(m, stores)
    requires 0 <= i < |m| && Misses(stores, i)
    ensures StoreAll(m, stores)[i] == m[i]
  {
    if |stores| > 0 {
      var n := |stores| - 1;
      StoresFrame(m, stores[..n], i);
      assert !(stores[n].at <= i < stores[n].at + 8);
    }
  }

  predicate StoresApart(stores: seq<Store>) {
    forall j, k | 0 <= j < k < |stores| :: Apart(stores[j].at, stores[k].at)
  }

  /** A slot apart from every store keeps its value. */
  lemma {:induction false} StoresElsewhere(m: seq<Byte>, stores: seq<Store>, at: int)
    requires StoresIn(m, stores)
    requires SlotIn(m, at) && forall k | 0 <= k < |stores| :: Apart(stores[k].at, at)
    ensures Read64(StoreAll(m, stores), at) == Read64(m, at)
  {
    if |stores| > 0 {
      var n := |stores| - 1;
      StoresElsewhere(m, stores[..n], at);
      ReadElsewhere(StoreAll(m, stores[..n]), stores[n].at, stores[n].value, at);
    }
  }

  /** When the slots do not overlap, every slot ends up with its own value. */
  lemma {:induction false} StoresHold(m: seq<Byte>, stores: seq<Store>, k: nat)
    requires StoresIn(m, stores)
    requires StoresApart(stores) && k < |stores|
    ensures Read64(StoreAll(m, stores), stores[k].at) == stores[k].value
  {
    var n := |stores| - 1;
    var before := StoreAll(m, stores[..n]);
    if k == n {
      ReadBack(before, stores[n].at, stores[n].value);
    } else {
      StoresHold(m, stores[..n], k);
      ReadElsewhere(before, stores[n].at, stores[n].value, stores[k].at);
    }
  }

  /** Two runs of stores to the same slots agree on every byte that no slot with differing values reaches. */
  lemma {:induction false} StoresAgree(m: seq<Byte>, left: seq<Store>, right: seq<Store>, i: int)
    requires |left| == |right| && 0 <= i < |m|
    requires StoresIn(m, left) && StoresIn(m, right) && forall k | 0 <= k < |left| :: left[k].at == right[k].at
    requires forall k | 0 <= k < |left| :: left[k].value == right[k].value || !(left[k].at <= i < left[k].at + 8)
    ensures StoreAll(m, left)[i] == StoreAll(m, right)[i]
  {
    if |left| > 0 {
      var n := |left| - 1;
      StoresAgree(m, left[..n], right[..n], i);
      assert left[n].at == right[n].at;
    }
  }

  /** The machine's store of a 64-bit value. */
  method Store64(img: array<Byte>, at: nat, v: Word64)
    requires at + 8 <= img.Length
    modifies img
    ensures img[..] == Write64(old(img[..]), at, v)
  {
    var bytes := ToBytes(v, 8);
    forall i | 0 <= i < 8 {
      img[at + i] := bytes[i];
    }
    assert img[..] == Write64(old(img[..]), at, v);
  }
}
