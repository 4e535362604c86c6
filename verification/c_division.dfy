/** The division operators the calendar code relies on. */
module CDivision {

  /** Integer division that truncates toward zero. */
  function TruncDiv(a: int, b: int): int
    requires b != 0
  {
    if a >= 0 then a / b else -((-a) / b)
  }

  /** The remainder that goes with it; it has the sign of a. */
  function TruncMod(a: int, b: int): int
    requires b != 0
  {
    a - b * TruncDiv(a, b)
  }

  function FloorDiv(a: int, b: int): int
    requires b != 0
  {
    if b < 0 && a < 0 then TruncDiv(a, b)
    else
      var (n, d) := if b < 0 then (-a, -b) else (a, b);
      TruncDiv(n - (if n < 0 then d - 1 else 0), d)
  }

  lemma QuotientUnique(a: int, b: int, q: int, r: int)
    requires b > 0 && a == b * q + r && 0 <= r < b
    ensures a / b == q
  {
    var k := a / b - q;
    assert a == b * (a / b) + a % b;
    assert b * k == r - a % b by {
      assert b * k == b * (a / b) - b * q;
    }
    MultipleIsFar(b, k);
  }

  lemma MultipleIsFar(b: int, k: int)
    requires b > 0
    ensures k >= 1 ==> b * k >= b
    ensures k <= -1 ==> b * k <= -b
  {
  }

  /** FloorDiv rounds toward minus infinity, for every sign of its operands. */
  lemma FloorDivIsFloor(a: int, b: int)
    requires b != 0
    ensures b > 0 ==> b * FloorDiv(a, b) <= a < b * FloorDiv(a, b) + b
    ensures b < 0 ==> b * FloorDiv(a, b) + b < a <= b * FloorDiv(a, b)
    ensures b > 0 ==> FloorDiv(a, b) == a / b
  {
    if b > 0 {
      PositiveDivisor(a, b);
    } else {
      PositiveDivisor(-a, -b);
      var q := (-a) / (-b);
      assert (-b) * q <= -a < (-b) * q + (-b);
      assert (-b) * q == -(b * q);
      if a < 0 {
        NegateDivisor(-a, -b);
      }
      assert FloorDiv(a, b) == q;
    }
  }

  lemma PositiveDivisor(a: int, b: int)
    requires b > 0
    ensures TruncDiv(a - (if a < 0 then b - 1 else 0), b) == a / b
    ensures b * (a / b) <= a < b * (a / b) + b
  {
    assert a == b * (a / b) + a % b;
    if a < 0 {
      var n := b - 1 - a;
      assert b * -(a / b) == -(b * (a / b));
      QuotientUnique(n, b, -(a / b), b - 1 - a % b);
    }
  }

  lemma NegateDivisor(a: int, b: int)
    requires a > 0 && b > 0
    ensures a / -b == -(a / b)
  {
    var q := a / -b;
    assert a == -b * q + a % -b;
    assert -b * q == b * -q;
    QuotientUnique(a, b, -q, a % -b);
  }

  /** A remainder is zero in one convention exactly when it is in the other. */
  lemma ZeroRemainder(a: int, b: int)
    requires b > 0
    ensures TruncMod(a, b) == 0 <==> a % b == 0
  {
    if a < 0 {
      assert -a == b * ((-a) / b) + (-a) % b;
      assert a == b * (a / b) + a % b;
      if (-a) % b == 0 {
        assert b * -((-a) / b) == -(b * ((-a) / b));
        QuotientUnique(a, b, -((-a) / b), 0);
      }
      if a % b == 0 {
        assert b * -(a / b) == -(b * (a / b));
        QuotientUnique(-a, b, -(a / b), 0);
      }
    }
  }
}
