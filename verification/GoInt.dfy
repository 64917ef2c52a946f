/** Go's int64: 64-bit two's complement, with addition and subtraction that wrap. */
module GoInt {
  const TWO_63 := 0x8000_0000_0000_0000
  const TWO_64 := 0x1_0000_0000_0000_0000

  type Int64 = x: int | -TWO_63 <= x < TWO_63

  /** A sum or difference of two int64 values brought back by at most one turn. */
  function OneTurn(x: int): Int64
    requires -TWO_64 <= x < TWO_64
  {
    if x >= TWO_63 then x - TWO_64 else if x < -TWO_63 then x + TWO_64 else x
  }

  function Add(a: Int64, b: Int64): Int64 {
    OneTurn(a + b)
  }

  function Sub(a: Int64, b: Int64): Int64 {
    OneTurn(a - b)
  }

  lemma AddAssociates(a: Int64, b: Int64, c: Int64)
    ensures Add(Add(a, b), c) == Add(a, Add(b, c))
  {
  }

  /** Any number brought into the range of int64 by whole turns. */
  function Wrap(x: int): Int64
    decreases if x < 0 then -x else x + 1
  {
    if x >= TWO_63 then Wrap(x - TWO_64) else if x < -TWO_63 then Wrap(x + TWO_64) else x
  }

  /** Wrapping keeps a number modulo 2^64. */
  lemma {:induction false} WrapIsCongruent(x: int)
    ensures (x - Wrap(x)) % TWO_64 == 0
    decreases if x < 0 then -x else x + 1
  {
    if x >= TWO_63 {
      WrapIsCongruent(x - TWO_64);
    } else if x < -TWO_63 {
      WrapIsCongruent(x + TWO_64);
    }
  }

  lemma WrapForgetsTurn(x: int)
    ensures Wrap(x + TWO_64) == Wrap(x)
  {
    if x < -TWO_63 {
      assert Wrap(x) == Wrap(x + TWO_64);
    } else {
      assert Wrap(x + TWO_64) == Wrap(x);
    }
  }

  /** int64 addition of wrapped numbers is wrapped addition. */
  lemma {:induction false} WrapAdds(a: int, b: int)
    ensures Add(Wrap(a), Wrap(b)) == Wrap(a + b)
    decreases (if a < 0 then -a else a + 1) + (if b < 0 then -b else b + 1)
  {
    if a >= TWO_63 {
      WrapAdds(a - TWO_64, b);
      WrapForgetsTurn(a - TWO_64 + b);
    } else if a < -TWO_63 {
      WrapAdds(a + TWO_64, b);
      WrapForgetsTurn(a + b);
    } else if b >= TWO_63 {
      WrapAdds(a, b - TWO_64);
      WrapForgetsTurn(a + b - TWO_64);
    } else if b < -TWO_63 {
      WrapAdds(a, b + TWO_64);
      WrapForgetsTurn(a + b);
    }
  }

  lemma TurnsOf(x: int) returns (k: int)
    requires x % TWO_64 == 0
    ensures x == k * TWO_64
  {
    k := x / TWO_64;
  }

  lemma TurnsAreWhole(k: int)
    ensures (k * TWO_64) % TWO_64 == 0
  {
  }

  lemma NoTurnBetween(a: Int64, b: Int64, k: int)
    requires a - b == k * TWO_64
    ensures a == b
  {
  }

  /** Two numbers look the same in int64 exactly when they differ by whole turns. */
  lemma WrapIsEqualExactlyWhen(a: int, b: int)
    ensures Wrap(a) == Wrap(b) <==> (a - b) % TWO_64 == 0
  {
    WrapIsCongruent(a);
    WrapIsCongruent(b);
    var m := TurnsOf(a - Wrap(a));
    var n := TurnsOf(b - Wrap(b));
    if Wrap(a) == Wrap(b) {
      TurnsAreWhole(m - n);
    } else if (a - b) % TWO_64 == 0 {
      var k := TurnsOf(a - b);
      NoTurnBetween(Wrap(a), Wrap(b), k - m + n);
      assert false;
    }
  }

  lemma WrapOfWrapped(a: int, b: int)
    ensures Wrap(a + Wrap(b)) == Wrap(a + b)
  {
    WrapAdds(a, b);
    WrapAdds(a, Wrap(b));
  }

  /** So is int64 subtraction. */
  lemma WrapSubtracts(a: int, b: int)
    ensures Sub(Wrap(a), Wrap(b)) == Wrap(a - b)
  {
    WrapAdds(a - b, b);
  }
}
