/** The hash on machine words: the operations of 32-bit registers, and that they compute the hash of numbers. */
module HashWords {

  import opened BitwiseXor
  import opened ByteImage
  import ByteHash

  function Half(x: bv32): bv32 { x >> 1 }

  function Odd(x: bv32): bool { x & 1 == 1 }

  function Next(x: bv32): bv32 { x + 1 }

  /** The number that a machine word stands for. */
  function Num(x: bv32): nat
    decreases x
  {
    if x == 0 then 0 else (if Odd(x) then 1 else 0) + 2 * Num(Half(x))
  }

  /** The lowest bit and the rest. */
  lemma Halves(x: bv32)
    ensures Num(x) / 2 == Num(Half(x)) && (Num(x) % 2 == 1 <==> Odd(x))
    ensures Num(x) == (if Odd(x) then 1 else 0) + 2 * Num(Half(x))
  {
    ZeroHalf();
    hide Half, Odd;
  }

  lemma ZeroHalf()
    ensures Half(0) == 0 && !Odd(0)
  {
  }

  lemma {:induction false} NumZero(x: bv32)
    ensures Num(x) == 0 <==> x == 0
    decreases x
  {
    if x != 0 {
      ZeroOrOne(x);
      NumZero(Half(x));
    }
  }

  lemma ZeroOrOne(x: bv32)
    requires x != 0
    ensures Half(x) < x && (Half(x) == 0 ==> Odd(x))
  {
  }

  // ---- Exclusive or and shifts to the right ----

  function XorWord(x: bv32, y: bv32): bv32 { x ^ y }

  lemma XorBits(x: bv32, y: bv32)
    ensures Half(XorWord(x, y)) == XorWord(Half(x), Half(y))
    ensures Odd(XorWord(x, y)) <==> Odd(x) != Odd(y)
    ensures XorWord(0, 0) == 0
  {
  }

  lemma {:induction false} NumOfXor(x: bv32, y: bv32)
    ensures Num(XorWord(x, y)) == Xor(Num(x), Num(y))
    decreases Num(x) + Num(y)
  {
    hide Half, Odd, XorWord, Num;
    XorBits(x, y);
    NumZero(x);
    NumZero(y);
    NumZero(0);
    Halves(x);
    Halves(y);
    Halves(XorWord(x, y));
    if Num(x) != 0 || Num(y) != 0 {
      NumOfXor(Half(x), Half(y));
    }
  }

  function Shr6(x: bv32): bv32 { x >> 6 }

  function Shr11(x: bv32): bv32 { x >> 11 }

  lemma ShiftsAreHalves(x: bv32)
    ensures Shr6(x) == Half(Half(Half(Half(Half(Half(x))))))
    ensures Shr11(x) == Half(Half(Half(Half(Half(Shr6(x))))))
  {
  }

  lemma NumOfShr(x: bv32)
    ensures Num(Shr6(x)) == Shr(Num(x), 6) && Num(Shr11(x)) == Shr(Num(x), 11)
  {
    hide Half, Odd, Num, Shr6, Shr11;
    ShiftsAreHalves(x);
    ManyHalves(x);
    ManyHalves(Shr6(x));
    ShrTwice(Num(x), 6, 5);
  }

  lemma ManyHalves(x: bv32)
    ensures Num(Half(Half(Half(Half(Half(x)))))) == Shr(Num(x), 5)
    ensures Num(Half(Half(Half(Half(Half(Half(x))))))) == Shr(Num(x), 6)
  {
    hide Half, Odd, Num;
    Halves(x);
    Halves(Half(x));
    Halves(Half(Half(x)));
    Halves(Half(Half(Half(x))));
    Halves(Half(Half(Half(Half(x)))));
    Halves(Half(Half(Half(Half(Half(x))))));
    var n := Num(x);
    ShrNext(n, 5);
    ShrNext(n, 4);
    ShrNext(n, 3);
    ShrNext(n, 2);
    ShrNext(n, 1);
    ShrNext(n, 0);
  }

  lemma {:induction false} ShrNext(n: nat, k: nat)
    ensures Shr(n, k + 1) == Shr(n, k) / 2 && Shr(n, 0) == n
  {
    ShrHalf(n, k);
  }

  lemma {:induction false} ShrTwice(n: nat, j: nat, k: nat)
    ensures Shr(n, j + k) == Shr(Shr(n, j), k)
    decreases j
  {
    if j > 0 {
      ShrTwice(n / 2, j - 1, k);
    }
  }

  // ---- Sums and shifts to the left ----

  const WORD: nat := 0x1_0000_0000

  lemma {:induction false} NumOfNext(x: bv32)
    ensures Num(Next(x)) == if x == 0xFFFF_FFFF then 0 else Num(x) + 1
    decreases x
  {
    if x == 0xFFFF_FFFF {
      assert Next(x) == 0;
    } else {
      NextBits(x);
      Halves(x);
      Halves(Next(x));
      if Odd(x) {
        NumOfNext(Half(x));
      }
    }
  }

  lemma NextBits(x: bv32)
    requires x != 0xFFFF_FFFF
    ensures Odd(x) ==> Half(Next(x)) == Next(Half(x)) && !Odd(Next(x)) && Half(x) < x && Half(x) != 0xFFFF_FFFF
    ensures !Odd(x) ==> Half(Next(x)) == Half(x) && Odd(Next(x))
  {
  }

  /** Without its lowest n bits. */
  function Shrunk(x: bv32, n: nat): bv32 {
    if n == 0 then x else Shrunk(Half(x), n - 1)
  }

  /** The lowest n bits are set. */
  predicate AllOnes(x: bv32, n: nat) {
    n == 0 || (Odd(x) && AllOnes(Half(x), n - 1))
  }

  lemma {:induction false} NumBound(x: bv32, n: nat)
    requires Shrunk(x, n) == 0
    ensures Num(x) < Pow2(n)
    decreases n
  {
    hide Half, Odd, Num;
    NumZero(x);
    if n > 0 {
      Halves(x);
      NumBound(Half(x), n - 1);
    }
  }

  lemma {:induction false} NumAtLeast(x: bv32, n: nat)
    requires AllOnes(x, n)
    ensures Num(x) >= Pow2(n) - 1
    decreases n
  {
    hide Half, Odd, Num;
    if n > 0 {
      Halves(x);
      NumAtLeast(Half(x), n - 1);
    }
  }

  /** Four bits at a time. */
  lemma FourBits(x: bv32, n: nat)
    ensures Shrunk(x, n + 4) == Shrunk(Half(Half(Half(Half(x)))), n)
    ensures AllOnes(x, n + 4) <==>
              Odd(x) && Odd(Half(x)) && Odd(Half(Half(x))) && Odd(Half(Half(Half(x)))) &&
              AllOnes(Half(Half(Half(Half(x)))), n)
  {
    hide Half, Odd;
    assert Shrunk(x, n + 4) == Shrunk(Half(x), n + 3) == Shrunk(Half(Half(x)), n + 2);
    assert Shrunk(Half(Half(x)), n + 2) == Shrunk(Half(Half(Half(x))), n + 1);
    assert AllOnes(x, n + 4) <==> Odd(x) && AllOnes(Half(x), n + 3);
    assert AllOnes(Half(x), n + 3) <==> Odd(Half(x)) && AllOnes(Half(Half(x)), n + 2);
    assert AllOnes(Half(Half(x)), n + 2) <==> Odd(Half(Half(x))) && AllOnes(Half(Half(Half(x))), n + 1);
  }

  lemma Nibble(x: bv32)
    ensures Half(Half(Half(Half(x)))) == x >> 4
    ensures Odd(x) && Odd(Half(x)) && Odd(Half(Half(x))) && Odd(Half(Half(Half(x)))) <==> x & 15 == 15
  {
  }

  function Nibbled(x: bv32): bv32 { x >> 4 }

  lemma WholeWord(x: bv32)
    ensures Shrunk(x, 32) == 0
  {
    hide Half, Odd, Nibbled, Shrunk;
    var half := Nibbled(Nibbled(Nibbled(Nibbled(x))));
    Drop(x, 28);
    Drop(Nibbled(x), 24);
    Drop(Nibbled(Nibbled(x)), 20);
    Drop(Nibbled(Nibbled(Nibbled(x))), 16);
    Drop(half, 12);
    Drop(Nibbled(half), 8);
    Drop(Nibbled(Nibbled(half)), 4);
    Drop(Nibbled(Nibbled(Nibbled(half))), 0);
    EightNibbles(x);
    ShrunkByNone(0);
  }

  lemma ShrunkByNone(x: bv32)
    ensures Shrunk(x, 0) == x
  {
  }

  lemma EightNibbles(x: bv32)
    ensures Nibbled(Nibbled(Nibbled(Nibbled(Nibbled(Nibbled(Nibbled(Nibbled(x)))))))) == 0
  {
  }

  lemma Drop(x: bv32, n: nat)
    ensures Shrunk(x, n + 4) == Shrunk(Nibbled(x), n)
    ensures AllOnes(x, n + 4) <==> x & 15 == 15 && AllOnes(Nibbled(x), n)
  {
    hide Half, Odd;
    FourBits(x, n);
    Nibble(x);
  }

  lemma NumIsWord(x: bv32)
    ensures Num(x) < WORD
  {
    WholeWord(x);
    NumBound(x, 32);
    WordSize();
  }

  lemma NumOfMax()
    ensures Num(0xFFFF_FFFF) == WORD - 1
  {
    Drop(0xFFFF_FFFF, 28);
    Drop(0xFFF_FFFF, 24);
    Drop(0xFF_FFFF, 20);
    Drop(0xF_FFFF, 16);
    Drop(0xFFFF, 12);
    Drop(0xFFF, 8);
    Drop(0xFF, 4);
    Drop(0xF, 0);
    NumAtLeast(0xFFFF_FFFF, 32);
    NumIsWord(0xFFFF_FFFF);
    WordSize();
  }

  function SumWord(x: bv32, y: bv32): bv32 { x + y }

  lemma OneLess(x: bv32, y: bv32)
    requires y != 0
    ensures Next(SumWord(x, y - 1)) == SumWord(x, y) && Next(y - 1) == y && y - 1 != 0xFFFF_FFFF && y - 1 < y
  {
  }

  lemma SumZero(x: bv32)
    ensures SumWord(x, 0) == x
  {
  }

  lemma {:induction false} NumOfSum(x: bv32, y: bv32)
    ensures Num(SumWord(x, y)) == (Num(x) + Num(y)) % WORD
    decreases y
  {
    hide Num, SumWord, Next;
    NumIsWord(x);
    if y == 0 {
      SumZero(x);
      NumZero(0);
    } else {
      OneLess(x, y);
      NumOfSum(x, y - 1);
      NumOfNext(SumWord(x, y - 1));
      NumOfNext(y - 1);
      NumOfMax();
      NumIsWord(SumWord(x, y - 1));
      OnlyMax(SumWord(x, y - 1));
    }
  }

  /** Different words stand for different numbers. */
  lemma {:induction false} OnlyMax(x: bv32)
    ensures Num(x) == WORD - 1 ==> x == 0xFFFF_FFFF
  {
    if x != 0xFFFF_FFFF {
      NumOfNext(x);
      NumIsWord(Next(x));
    }
  }

  function Twice(x: bv32): bv32 { x << 1 }

  lemma NumOfTwice(x: bv32)
    ensures Num(Twice(x)) == Modulo(2 * Num(x))
  {
    hide Num, SumWord;
    assert Twice(x) == SumWord(x, x) by { TwiceIsSum(x); }
    NumOfSum(x, x);
  }

  lemma TwiceIsSum(x: bv32)
    ensures Twice(x) == SumWord(x, x)
  {
  }

  function Doubled(x: bv32, k: nat): bv32 {
    if k == 0 then x else Twice(Doubled(x, k - 1))
  }

  lemma {:induction false} NumOfDoubled(x: bv32, k: nat)
    ensures Num(Doubled(x, k)) == Modulo(Num(x) * Pow2(k))
  {
    hide Num, Twice, Modulo;
    if k == 0 {
      NumIsWord(x);
      SmallModulo(Num(x));
    } else {
      NumOfDoubled(x, k - 1);
      NumOfTwice(Doubled(x, k - 1));
      TwiceModulo(Num(x), Pow2(k - 1), Num(Doubled(x, k - 1)));
    }
  }

  function Modulo(n: nat): nat { n % WORD }

  lemma SmallModulo(n: nat)
    requires n < WORD
    ensures Modulo(n * 1) == n
  {
  }

  lemma TwiceModulo(n: nat, p: nat, d: nat)
    requires d == Modulo(n * p)
    ensures Modulo(2 * d) == Modulo(n * (2 * p))
  {
    var m := n * p;
    var q := m / WORD;
    assert n * (2 * p) == 2 * m;
    assert 2 * m == 2 * d + 2 * q * WORD;
  }

  function Shl3(x: bv32): bv32 { x << 3 }

  function Shl5(x: bv32): bv32 { x << 5 }

  function Shl10(x: bv32): bv32 { x << 10 }

  function Shl15(x: bv32): bv32 { x << 15 }

  lemma Shl3IsTwice(x: bv32)
    ensures Shl3(x) == Twice(Twice(Twice(x)))
  {
  }

  lemma Shl5IsTwice(x: bv32)
    ensures Shl5(x) == Twice(Twice(Shl3(x)))
  {
  }

  lemma Shl15IsShl5(x: bv32)
    ensures Shl10(x) == Shl5(Shl5(x)) && Shl15(x) == Shl5(Shl10(x))
  {
  }

  lemma FiveMore(x: bv32, k: nat)
    ensures Doubled(x, 3) == Shl3(x) && Doubled(x, k + 5) == Shl5(Doubled(x, k))
  {
    hide Twice, Shl3, Shl5, Shl10, Shl15;
    Shl3IsTwice(x);
    Shl3IsTwice(Doubled(x, k));
    Shl5IsTwice(Doubled(x, k));
    assert Doubled(x, 1) == Twice(x);
    assert Doubled(x, 2) == Twice(Twice(x));
    assert Doubled(x, k + 1) == Twice(Doubled(x, k));
    assert Doubled(x, k + 2) == Twice(Twice(Doubled(x, k)));
    assert Doubled(x, k + 3) == Twice(Twice(Twice(Doubled(x, k))));
    assert Doubled(x, k + 4) == Twice(Twice(Twice(Twice(Doubled(x, k)))));
  }

  lemma NumOfShl(x: bv32)
    ensures Num(Shl3(x)) == Num(x) * 8 % WORD
    ensures Num(Shl10(x)) == Num(x) * 1024 % WORD
    ensures Num(Shl15(x)) == Num(x) * 32768 % WORD
  {
    hide Num, Twice, Shl3, Shl5, Shl10, Shl15;
    Shl15IsShl5(x);
    FiveMore(x, 0);
    FiveMore(x, 5);
    FiveMore(x, 10);
    assert Doubled(x, 0) == x;
    NumOfDoubled(x, 3);
    NumOfDoubled(x, 10);
    NumOfDoubled(x, 15);
    Powers();
  }

  lemma Powers()
    ensures Pow2(3) == 8 && Pow2(10) == 1024 && Pow2(15) == 32768
  {
    assert Pow2(5) == 32 by { assert Pow2(4) == 16; }
    Pow2Doubles(5, 5);
    Pow2Doubles(5, 10);
  }

  // ---- The hash ----

  /** hash += b; hash += hash << 10; hash ^= hash >> 6 */
  function MixWord(h: bv32, b: bv32): bv32 {
    var sum := SumWord(h, b);
    var spread := SumWord(sum, Shl10(sum));
    XorWord(spread, Shr6(spread))
  }

  /** hash += hash << 3; hash ^= hash >> 11; hash += hash << 15 */
  function FinishWord(h: bv32): bv32 {
    var spread := SumWord(h, Shl3(h));
    var folded := XorWord(spread, Shr11(spread));
    SumWord(folded, Shl15(folded))
  }

  /** A word added to its multiple. */
  lemma SpreadOf(x: bv32, shifted: bv32, factor: nat)
    requires Num(shifted) == Num(x) * factor % WORD
    ensures Num(x) < WORD && Num(SumWord(x, shifted)) == ByteHash.Spread(Num(x), factor)
  {
    hide Num, SumWord;
    NumIsWord(x);
    NumOfSum(x, shifted);
  }

  lemma SpreadIsMachine(x: bv32)
    ensures Num(x) < WORD
    ensures Num(SumWord(x, Shl10(x))) == ByteHash.Spread(Num(x), 1024)
    ensures Num(SumWord(x, Shl3(x))) == ByteHash.Spread(Num(x), 8)
    ensures Num(SumWord(x, Shl15(x))) == ByteHash.Spread(Num(x), 32768)
  {
    hide Num, SumWord, Shl3, Shl10, Shl15, ByteHash.Spread;
    NumOfShl(x);
    SpreadOf(x, Shl10(x), 1024);
    SpreadOf(x, Shl3(x), 8);
    SpreadOf(x, Shl15(x), 32768);
  }

  lemma FoldIsMachine(x: bv32)
    ensures Num(x) < WORD
    ensures Num(XorWord(x, Shr6(x))) == ByteHash.Fold(Num(x), 6)
    ensures Num(XorWord(x, Shr11(x))) == ByteHash.Fold(Num(x), 11)
  {
    hide Num, XorWord, Xor, Shr6, Shr11, Shr;
    NumIsWord(x);
    NumOfShr(x);
    NumOfXor(x, Shr6(x));
    NumOfXor(x, Shr11(x));
  }

  /** A mixing round computes what the machine does on 32-bit words. */
  lemma MixIsMachine(h: bv32, b: bv32)
    requires Num(b) < 256
    ensures Num(h) < WORD && Num(MixWord(h, b)) == ByteHash.Mix(Num(h), Num(b))
  {
    hide Num, SumWord, XorWord, Shl10, Shr6, ByteHash.Fold, ByteHash.Spread;
    NumIsWord(h);
    NumOfSum(h, b);
    var sum := SumWord(h, b);
    SpreadIsMachine(sum);
    FoldIsMachine(SumWord(sum, Shl10(sum)));
  }

  /** And so does the finalizer. */
  lemma FinishIsMachine(h: bv32)
    ensures Num(h) < WORD && Num(FinishWord(h)) == ByteHash.Finish(Num(h))
  {
    hide Num, SumWord, XorWord, Shl3, Shl15, Shr11, ByteHash.Fold, ByteHash.Spread;
    SpreadIsMachine(h);
    var spread := SumWord(h, Shl3(h));
    FoldIsMachine(spread);
    SpreadIsMachine(XorWord(spread, Shr11(spread)));
  }

  // ---- Keys of bytes ----

  function Wide(b: bv8): bv32 { b as bv32 }

  lemma WideBits(b: bv8)
    ensures Nibbled(Nibbled(Wide(b))) == 0
  {
  }

  lemma NumOfByte(b: bv8)
    ensures Num(Wide(b)) < 256
  {
    hide Num, Nibbled, Wide, Half, Odd, Shrunk;
    WideBits(b);
    Drop(Wide(b), 4);
    Drop(Nibbled(Wide(b)), 0);
    ShrunkByNone(0);
    NumBound(Wide(b), 8);
    assert Pow2(8) == 256 by { EightDoublings(); }
  }

  lemma EightDoublings()
    ensures Pow2(8) == 256
  {
    assert Pow2(4) == 16;
    Pow2Doubles(4, 4);
  }

  /** The key's bytes as numbers. */
  function Bytes(key: seq<bv8>): (s: seq<Byte>)
    ensures |s| == |key| && forall i | 0 <= i < |key| :: s[i] == Num(Wide(key[i]))
  {
    seq(|key|, i requires 0 <= i < |key| => NumByte(key[i]))
  }

  function NumByte(b: bv8): (n: Byte)
    ensures n == Num(Wide(b))
  {
    NumOfByte(b);
    Num(Wide(b))
  }

  /** One byte absorbed on the machine is one byte absorbed by the reference. */
  lemma AbsorbWord(h: bv32, b: bv8, s: seq<Byte>, i: nat)
    requires i < |s| && s[i] == Num(Wide(b)) && Num(h) == ByteHash.Absorb(0, s[..i])
    ensures Num(MixWord(h, Wide(b))) == ByteHash.Absorb(0, s[..i + 1])
  {
    hide Num, MixWord, Wide, ByteHash.Mix, ByteHash.Absorb;
    NumOfByte(b);
    MixIsMachine(h, Wide(b));
    ByteHash.AbsorbNext(s, i);
  }

  /** The hash on machine words: groups of four, then the tail backwards, then the finalizer. */
  method Hash(key: seq<bv8>) returns (hash: bv32)
    ensures Num(hash) == ByteHash.HashOf(Bytes(key))
  {
    hide Num, MixWord, FinishWord, Wide, Bytes, ByteHash.Order, ByteHash.Absorb, ByteHash.Finish;
    hash := 0;
    NumZero(0);
    ByteHash.AbsorbNone();
    ghost var s := Bytes(key);
    ghost var order := ByteHash.Order(s);
    assert s[..0] == [];
    var ptr, len := 0, |key|;
    while len >= 4
      invariant 0 <= ptr <= |key| && ptr + len == |key| && ptr % 4 == 0
      invariant Num(hash) == ByteHash.Absorb(0, s[..ptr])
    {
      AbsorbWord(hash, key[ptr], s, ptr);
      hash := MixWord(hash, Wide(key[ptr]));
      AbsorbWord(hash, key[ptr + 1], s, ptr + 1);
      hash := MixWord(hash, Wide(key[ptr + 1]));
      AbsorbWord(hash, key[ptr + 2], s, ptr + 2);
      hash := MixWord(hash, Wide(key[ptr + 2]));
      AbsorbWord(hash, key[ptr + 3], s, ptr + 3);
      hash := MixWord(hash, Wide(key[ptr + 3]));
      ptr, len := ptr + 4, len - 4;
    }
    ByteHash.TailOrder(s, ptr, len);
    if len == 3 {
      AbsorbWord(hash, key[ptr + 2], order, ptr);
      hash := MixWord(hash, Wide(key[ptr + 2]));
    }
    if len >= 2 {
      AbsorbWord(hash, key[ptr + 1], order, ptr + len - 2);
      hash := MixWord(hash, Wide(key[ptr + 1]));
    }
    if len >= 1 {
      AbsorbWord(hash, key[ptr], order, ptr + len - 1);
      hash := MixWord(hash, Wide(key[ptr]));
    }
    assert order[..|order|] == order;
    FinishIsMachine(hash);
    hash := FinishWord(hash);
  }

  // ---- A known value ----

  /** One letter on the machine. */
  lemma LetterOnMachine()
    ensures FinishWord(MixWord(0, Wide(0x61))) == 0xca2e9442
  {
  }

  /** The reference hash of the one-letter key "a". */
  lemma LetterHash()
    ensures Num(Wide(0x61)) == 0x61 && ByteHash.HashOf([0x61]) == 0xca2e9442
  {
    hide Num, MixWord, FinishWord, Wide, ByteHash.Mix, ByteHash.Finish, ByteHash.Absorb, ByteHash.Order;
    LetterOnMachine();
    Literals();
    NumZero(0);
    MixIsMachine(0, Wide(0x61));
    FinishIsMachine(MixWord(0, Wide(0x61)));
    ByteHash.Hash8IsHash(0x61);
    assert ByteHash.Hash8(0x61) == ByteHash.Finish(ByteHash.Mix(0, 0x61));
  }

  /** A word from its half. */
  lemma FromHalf(x: bv32, n: nat)
    requires Num(Half(x)) == n / 2 && (Odd(x) <==> n % 2 == 1)
    ensures Num(x) == n
  {
    hide Num, Half, Odd;
    Halves(x);
  }

  function Shr8(x: bv32): bv32 { x >> 8 }

  lemma OddBit(x: bv32)
    ensures Odd(x) <==> Bit(x, 1) == 1
  {
  }

  lemma HalfBits(x: bv32)
    ensures Bit(Half(x), 1) == Bit(x, 2) && Bit(Half(x), 2) == Bit(x, 4) && Bit(Half(x), 4) == Bit(x, 8)
  {
  }

  lemma FourHalves(x: bv32)
    ensures Half(Half(Half(Half(x)))) == Nibbled(x)
  {
  }

  lemma HighHalves(x: bv32)
    ensures Bit(Nibbled(x), 1) == Bit(x, 16) && Bit(Nibbled(x), 2) == Bit(x, 32)
    ensures Bit(Nibbled(x), 4) == Bit(x, 64) && Bit(Nibbled(x), 8) == Bit(x, 128)
    ensures Nibbled(Nibbled(x)) == Shr8(x)
  {
  }

  lemma FourLowBits(x: bv32)
    ensures Num(x) == 16 * Num(Nibbled(x)) + Bit(x, 1) + 2 * Bit(x, 2) + 4 * Bit(x, 4) + 8 * Bit(x, 8)
  {
    hide Num, Half, Odd, Nibbled, Bit;
    FourHalves(x);
    HalfBits(x);
    HalfBits(Half(x));
    HalfBits(Half(Half(x)));
    OddBit(x);
    OddBit(Half(x));
    OddBit(Half(Half(x)));
    OddBit(Half(Half(Half(x))));
    Halves(x);
    Halves(Half(x));
    Halves(Half(Half(x)));
    Halves(Half(Half(Half(x))));
  }

  lemma EightBits(x: bv32)
    ensures Num(x) == Num(Shr8(x)) * 256 + Low8(x)
  {
    hide Num, Nibbled, Bit, Shr8;
    HighHalves(x);
    FourLowBits(x);
    FourLowBits(Nibbled(x));
  }

  /** The lowest eight bits. */
  function Low8(x: bv32): nat {
    Bit(x, 1) + 2 * Bit(x, 2) + 4 * Bit(x, 4) + 8 * Bit(x, 8) +
    16 * Bit(x, 16) + 32 * Bit(x, 32) + 64 * Bit(x, 64) + 128 * Bit(x, 128)
  }

  function Bit(x: bv32, mask: bv32): (b: nat)
    ensures b <= 1
  {
    if x & mask != 0 then 1 else 0
  }

  lemma Literals()
    ensures Num(Wide(0x61)) == 0x61 && Num(0xca2e9442) == 0xca2e9442
  {
    hide Num;
    NumZero(0);
    assert Wide(0x61) == 0x61;
    EightBits(0x61);
    EightBits(0xca2e9442);
    EightBits(0xca2e94);
    EightBits(0xca2e);
    EightBits(0xca);
  }
}
