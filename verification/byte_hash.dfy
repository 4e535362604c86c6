/** The one-at-a-time byte hash, with its unrolled main loop and its fall-through tail.

    A 32-bit word is a natural number below 2^32, and additions and left shifts wrap. */
module ByteHash {
  import opened BitwiseXor
  import opened ByteImage

  const WORD: nat := 0x1_0000_0000

  type Word = x: nat | x < 0x1_0000_0000

  function Add(h: Word, b: Byte): Word {
    (h + b) % WORD
  }

  /** hash += hash << k, for 2^k == factor. */
  function Spread(h: Word, factor: nat): Word {
    (h + h * factor % WORD) % WORD
  }

  /** hash ^= hash >> k. */
  function Fold(h: Word, k: nat): Word {
    ShrHalf(h, k);
    WordSize();
    XorBound(h, Shr(h, k), 32);
    Xor(h, Shr(h, k))
  }

  /** One byte absorbed into the state. */
  function Mix(h: Word, b: Byte): Word {
    Fold(Spread(Add(h, b), 1024), 6)
  }

  function Finish(h: Word): Word {
    Spread(Fold(Spread(h, 8), 11), 32768)
  }

  function Absorb(h: Word, bytes: seq<Byte>): Word {
    if |bytes| == 0 then h else Mix(Absorb(h, bytes[..|bytes| - 1]), bytes[|bytes| - 1])
  }

  function Reversed(s: seq<Byte>): (r: seq<Byte>)
    ensures |r| == |s| && forall i | 0 <= i < |s| :: r[i] == s[|s| - 1 - i]
  {
    if |s| == 0 then [] else Reversed(s[1..]) + [s[0]]
  }

  /** The order in which the bytes of a key are absorbed: whole groups of four in order,
      then the rest backwards. */
  function Order(key: seq<Byte>): seq<Byte> {
    var groups := |key| / 4 * 4;
    key[..groups] + Reversed(key[groups..])
  }

  function HashOf(key: seq<Byte>): Word {
    Finish(Absorb(0, Order(key)))
  }

  method Hash(key: seq<Byte>) returns (hash: Word)
    ensures hash == HashOf(key)
  {
    hide Mix, Finish, Order, Absorb;
    assert key[..0] == [] && Absorb(0, []) == 0 by { AbsorbNone(); }
    hash := 0;
    var ptr, len := 0, |key|;
    while len >= 4
      invariant 0 <= ptr <= |key| && ptr + len == |key| && ptr % 4 == 0
      invariant hash == Absorb(0, key[..ptr])
    {
      hash := Mix(hash, key[ptr]);
      AbsorbNext(key, ptr);
      hash := Mix(hash, key[ptr + 1]);
      AbsorbNext(key, ptr + 1);
      hash := Mix(hash, key[ptr + 2]);
      AbsorbNext(key, ptr + 2);
      hash := Mix(hash, key[ptr + 3]);
      AbsorbNext(key, ptr + 3);
      ptr, len := ptr + 4, len - 4;
    }
    ghost var order := Order(key);
    TailOrder(key, ptr, len);
    if len == 3 {
      hash := Mix(hash, key[ptr + 2]);
      AbsorbNext(order, ptr);
    }
    if len >= 2 {
      hash := Mix(hash, key[ptr + 1]);
      AbsorbNext(order, ptr + len - 2);
    }
    if len >= 1 {
      hash := Mix(hash, key[ptr]);
      AbsorbNext(order, ptr + len - 1);
    }
    assert order[..|order|] == order;
    hash := Finish(hash);
  }

  lemma AbsorbNone()
    ensures Absorb(0, []) == 0
  {
  }

  lemma TailOrder(key: seq<Byte>, ptr: nat, len: nat)
    requires ptr + len == |key| && ptr % 4 == 0 && len < 4
    ensures |Order(key)| == |key| && Order(key)[..ptr] == key[..ptr]
    ensures forall k | ptr <= k < |key| :: Order(key)[k] == key[ptr + |key| - 1 - k]
  {
    GroupsEnd(ptr, len);
  }

  lemma AbsorbNext(bytes: seq<Byte>, i: nat)
    requires i < |bytes|
    ensures Absorb(0, bytes[..i + 1]) == Mix(Absorb(0, bytes[..i]), bytes[i])
  {
    assert bytes[..i + 1][..i] == bytes[..i];
  }

  lemma GroupsEnd(ptr: nat, len: nat)
    requires ptr % 4 == 0 && len < 4
    ensures (ptr + len) / 4 * 4 == ptr
  {
  }

  // ---- Every step is injective ----

  /** Multiplication by an odd constant is undone by its inverse modulo 2^32. */
  lemma SpreadInverse(h: Word, factor: nat, inverse: nat)
    requires (factor + 1) * inverse % WORD == 1
    ensures Spread(h, factor) * inverse % WORD == h
  {
    var r := Spread(h, factor);
    var q1 := h * factor / WORD;
    var q2 := (h + h * factor % WORD) / WORD;
    var q3 := (factor + 1) * inverse / WORD;
    calc {
      r * inverse;
      (h + h * factor - (q1 + q2) * WORD) * inverse;
      { assert h + h * factor == h * (factor + 1); }
      (h * (factor + 1) - (q1 + q2) * WORD) * inverse;
      h * ((factor + 1) * inverse) - ((q1 + q2) * inverse) * WORD;
      h * (q3 * WORD + 1) - ((q1 + q2) * inverse) * WORD;
      h + (h * q3 - (q1 + q2) * inverse) * WORD;
    }
    WholeWords(h, h * q3 - (q1 + q2) * inverse);
  }

  lemma WholeWords(h: Word, k: int)
    ensures (h + k * WORD) % WORD == h
  {
  }

  lemma SpreadInjective(g: Word, h: Word, factor: nat)
    requires factor in {8, 1024, 32768} && Spread(g, factor) == Spread(h, factor)
    ensures g == h
  {
    var inverse := if factor == 8 then 0x38e38e39 else if factor == 1024 then 0xc00ffc01 else 0x3fff8001;
    SpreadInverse(g, factor, inverse);
    SpreadInverse(h, factor, inverse);
  }

  lemma FoldInjective(g: Word, h: Word, k: nat)
    requires k > 0 && Fold(g, k) == Fold(h, k)
    ensures g == h
  {
    ShiftXorInjective(g, h, k);
  }

  lemma SpreadFoldInjective(g: Word, h: Word)
    requires Fold(Spread(g, 1024), 6) == Fold(Spread(h, 1024), 6)
    ensures g == h
  {
    FoldInjective(Spread(g, 1024), Spread(h, 1024), 6);
    SpreadInjective(g, h, 1024);
  }

  /** Absorbing a byte never makes two different states equal. */
  lemma MixInjective(g: Word, h: Word, b: Byte)
    requires Mix(g, b) == Mix(h, b)
    ensures g == h
  {
    hide Add, Spread, Fold;
    SpreadFoldInjective(Add(g, b), Add(h, b));
    AddInjective(g, h, b);
  }

  /** Different bytes absorbed in the same state give different states. */
  lemma MixSeparates(h: Word, a: Byte, b: Byte)
    requires Mix(h, a) == Mix(h, b)
    ensures a == b
  {
    hide Add, Spread, Fold;
    SpreadFoldInjective(Add(h, a), Add(h, b));
    AddSeparates(h, a, b);
  }

  lemma AddInjective(g: Word, h: Word, b: Byte)
    requires Add(g, b) == Add(h, b)
    ensures g == h
  {
  }

  lemma AddSeparates(h: Word, a: Byte, b: Byte)
    requires Add(h, a) == Add(h, b)
    ensures a == b
  {
  }

  /** The finalizer never makes two different states equal. */
  lemma FinishInjective(g: Word, h: Word)
    requires Finish(g) == Finish(h)
    ensures g == h
  {
    SpreadInjective(Fold(Spread(g, 8), 11), Fold(Spread(h, 8), 11), 32768);
    FoldInjective(Spread(g, 8), Spread(h, 8), 11);
    SpreadInjective(g, h, 8);
  }

  // ---- Sensitivity ----

  /** Two byte strings that differ in one place leave different states. */
  lemma {:induction false} AbsorbSensitive(s: seq<Byte>, t: seq<Byte>, p: nat)
    requires |s| == |t| && p < |s| && s[p] != t[p]
    requires forall i | 0 <= i < |s| && i != p :: s[i] == t[i]
    ensures Absorb(0, s) != Absorb(0, t)
  {
    hide Mix;
    var n := |s| - 1;
    if p == n {
      assert s[..n] == t[..n];
      if Absorb(0, s) == Absorb(0, t) {
        MixSeparates(Absorb(0, s[..n]), s[n], t[n]);
      }
    } else {
      AbsorbSensitive(s[..n], t[..n], p);
      if Absorb(0, s) == Absorb(0, t) {
        MixInjective(Absorb(0, s[..n]), Absorb(0, t[..n]), s[n]);
      }
    }
  }

  /** Where a byte of the key is absorbed. */
  function Position(len: nat, i: nat): nat
    requires i < len
  {
    var groups := len / 4 * 4;
    if i < groups then i else groups + len - 1 - i
  }

  lemma OrderAt(key: seq<Byte>, i: nat)
    requires i < |key|
    ensures |Order(key)| == |key| && Position(|key|, i) < |key| && Order(key)[Position(|key|, i)] == key[i]
    ensures Position(|key|, Position(|key|, i)) == i
  {
  }

  /** Changing exactly one byte of a key of any length always changes its hash. */
  lemma OneByteChangesHash(key: seq<Byte>, other: seq<Byte>, i: nat)
    requires |key| == |other| && i < |key| && key[i] != other[i]
    requires forall j | 0 <= j < |key| && j != i :: key[j] == other[j]
    ensures HashOf(key) != HashOf(other)
  {
    hide Finish, Absorb, Order, Position;
    var s, t := Order(key), Order(other);
    OrderAt(key, i);
    OrderAt(other, i);
    var p := Position(|key|, i);
    forall q | 0 <= q < |s| && q != p ensures s[q] == t[q] {
      OrderAt(key, q);
      OrderAt(key, Position(|key|, q));
      OrderAt(other, Position(|key|, q));
    }
    AbsorbSensitive(s, t, p);
    if HashOf(key) == HashOf(other) {
      FinishInjective(Absorb(0, s), Absorb(0, t));
    }
  }

  // ---- The hashes of machine words ----

  function MixFour(h: Word, p: seq<Byte>): Word
    requires |p| == 4
  {
    Mix(Mix(Mix(Mix(h, p[0]), p[1]), p[2]), p[3])
  }

  function Hash8(key: Byte): Word {
    Finish(Mix(0, key))
  }

  function Hash16(key: nat): Word {
    var ptr := ToBytes(key, 2);
    Finish(Mix(Mix(0, ptr[0]), ptr[1]))
  }

  function Hash32(key: nat): Word {
    Finish(MixFour(0, ToBytes(key, 4)))
  }

  function Hash64(key: nat): Word {
    var ptr := ToBytes(key, 8);
    Finish(MixFour(MixFour(0, ptr[..4]), ptr[4..]))
  }

  lemma AbsorbFour(bytes: seq<Byte>, i: nat)
    requires i + 4 <= |bytes|
    ensures Absorb(0, bytes[..i + 4]) == MixFour(Absorb(0, bytes[..i]), bytes[i..i + 4])
  {
    hide Mix;
    AbsorbNext(bytes, i);
    AbsorbNext(bytes, i + 1);
    AbsorbNext(bytes, i + 2);
    AbsorbNext(bytes, i + 3);
  }

  /** The 8-bit hash is the general hash of the byte. */
  lemma Hash8IsHash(key: Byte)
    ensures Hash8(key) == HashOf([key])
  {
    hide Mix, Finish;
    assert Order([key]) == [key];
    AbsorbNext([key], 0);
    assert [key][..1] == [key] && [key][..0] == [];
  }

  /** The 16-bit hash takes the bytes in the opposite order to the general hash. */
  lemma Hash16IsHashReversed(key: nat)
    ensures Hash16(key) == HashOf(Reversed(ToBytes(key, 2)))
  {
    hide Mix, Finish, Order, Absorb, ToBytes;
    var ptr := ToBytes(key, 2);
    TailOrder(Reversed(ptr), 0, 2);
    assert Order(Reversed(ptr)) == ptr;
    AbsorbNone();
    AbsorbNext(ptr, 0);
    AbsorbNext(ptr, 1);
    assert ptr[..2] == ptr && ptr[..0] == [];
  }

  /** The 32-bit hash is the general hash of the word's bytes in memory. */
  lemma Hash32IsHash(key: nat)
    ensures Hash32(key) == HashOf(ToBytes(key, 4))
  {
    hide Mix, Finish, Absorb, ToBytes, Order, MixFour;
    var ptr := ToBytes(key, 4);
    TailOrder(ptr, 4, 0);
    assert Order(ptr) == ptr;
    AbsorbNone();
    AbsorbFour(ptr, 0);
    assert ptr[..4] == ptr && ptr[0..4] == ptr && ptr[..0] == [];
  }

  /** The 64-bit hash is the general hash of the word's bytes in memory. */
  lemma Hash64IsHash(key: nat)
    ensures Hash64(key) == HashOf(ToBytes(key, 8))
  {
    hide Mix, Finish, Absorb, ToBytes, Order, MixFour;
    var ptr := ToBytes(key, 8);
    TailOrder(ptr, 8, 0);
    assert Order(ptr) == ptr;
    AbsorbNone();
    AbsorbFour(ptr, 0);
    AbsorbFour(ptr, 4);
    assert ptr[..8] == ptr && ptr[..0] == [] && ptr[0..4] == ptr[..4] && ptr[4..8] == ptr[4..];
  }
}
