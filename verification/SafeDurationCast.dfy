/** The checked conversions of include/spdlog/fmt/bundled/chrono.h, for integers of any width up to 64 bits. */
module SafeDurationCast {

  /** An integer type: how many bits carry the value, and whether there is a sign besides. */
  datatype Rep = Rep(digits: nat, signed: bool)

  ghost predicate IsRep(r: Rep) {
    0 < r.digits <= if r.signed then 63 else 64
  }

  function Pow2(n: nat): (p: nat)
    ensures p > 0
  {
    if n == 0 then 1 else 2 * Pow2(n - 1)
  }

  lemma {:induction false} Pow2Grows(m: nat, n: nat)
    requires m <= n
    ensures Pow2(m) <= Pow2(n)
    decreases n - m
  {
    if m == n {
    } else {
      Pow2Grows(m + 1, n);
    }
  }

  function Min(r: Rep): int { if r.signed then 0 - Pow2(r.digits) else 0 }
  function Max(r: Rep): int { Pow2(r.digits) - 1 }

  lemma {:induction false} Pow2Adds(m: nat, n: nat)
    ensures Pow2(m + n) == Pow2(m) * Pow2(n)
    decreases m
  {
    if m == 0 {
    } else {
      Pow2Adds(m - 1, n);
      Doubles(Pow2(m - 1), Pow2(n));
    }
  }

  lemma Doubles(a: int, b: int)
    ensures (2 * a) * b == 2 * (a * b)
  {
  }

  /** The ranges of the 32-bit and the 64-bit integers. */
  lemma Ranges()
    ensures Min(Rep(31, true)) == -2147483648 && Max(Rep(31, true)) == 2147483647
    ensures Min(Rep(32, false)) == 0 && Max(Rep(32, false)) == 4294967295
    ensures Min(Rep(63, true)) == -9223372036854775808 && Max(Rep(63, true)) == 9223372036854775807
    ensures Min(Rep(64, false)) == 0 && Max(Rep(64, false)) == 18446744073709551615
  {
    WidePowers();
    HalfPower(32);
    HalfPower(64);
    hide Pow2;
  }

  lemma HalfPower(n: nat)
    requires n > 0
    ensures Pow2(n) == 2 * Pow2(n - 1)
  {
  }

  lemma WidePowers()
    ensures Pow2(32) == 4294967296 && Pow2(64) == 18446744073709551616
  {
    assert Pow2(8) == 256;
    hide Pow2;
    Pow2Adds(8, 8);
    Pow2Adds(16, 16);
    Pow2Adds(32, 32);
  }

  predicate Fits(r: Rep, x: int) {
    Min(r) <= x <= Max(r)
  }

  /** A static_cast: modulo the number of values of the type. */
  function Cast(r: Rep, x: int): int {
    if r.signed then (x + Pow2(r.digits)) % (2 * Pow2(r.digits)) - Pow2(r.digits)
    else x % Pow2(r.digits)
  }

  lemma CastOfFitting(r: Rep, x: int)
    requires Fits(r, x)
    ensures Cast(r, x) == x
  {
    SmallModulo(if r.signed then x + Pow2(r.digits) else x, if r.signed then 2 * Pow2(r.digits) else Pow2(r.digits));
  }

  lemma SmallModulo(a: int, n: nat)
    requires 0 <= a < n
    ensures a % n == a
  {
  }

  /** Converts without loss, or reports an error: the error is reported exactly when the value does not fit. */
  method LosslessIntegralConversion(f: Rep, t: Rep, from: int) returns (to: int, ec: bool)
    requires IsRep(f) && IsRep(t) && Fits(f, from)
    ensures ec <==> !Fits(t, from)
    ensures to == if ec then 0 else from
  {
    ec := false;
    if f.digits <= t.digits {
      Pow2Grows(f.digits, t.digits);
    } else {
      Pow2Grows(t.digits, f.digits);
    }
    if f == t {
      return from, false;
    } else if f.signed == t.signed {
      if f.digits > t.digits {
        if from < Min(t) || from > Max(t) {
          return 0, true;
        }
      }
    } else {
      if f.signed && !t.signed {
        if from < 0 {
          return 0, true;
        }
        if f.digits > t.digits {
          CastOfFitting(f, Max(t));
          if from > Cast(f, Max(t)) {
            return 0, true;
          }
        }
      }
      if !f.signed && t.signed && f.digits >= t.digits {
        CastOfFitting(f, Max(t));
        if from > Cast(f, Max(t)) {
          return 0, true;
        }
      }
    }
    CastOfFitting(t, from);
    to := Cast(t, from);
  }

  /** The common type of the two representations and a signed 64-bit integer. */
  function IntermediateRep(from: Rep, to: Rep): Rep {
    if from == Rep(64, false) || to == Rep(64, false) then Rep(64, false) else Rep(63, true)
  }

  /** Division as the machine does it. */
  function Quotient(a: int, b: nat): int
    requires b > 0
  {
    if a >= 0 then a / b else -(-a / b)
  }

  lemma DivBounds(m: nat, b: nat)
    requires b > 0
    ensures (m / b) * b <= m < (m / b) * b + b
  {
    var q, r := m / b, m % b;
    assert m == b * q + r;
    assert b * q == q * b;
  }

  lemma QuotientTowardZero(a: int, b: nat)
    requires b > 0
    ensures var q := Quotient(a, b);
            && (a >= 0 ==> q >= 0 && q * b <= a < q * b + b)
            && (a <= 0 ==> q <= 0 && q * b - b < a <= q * b)
  {
    if a >= 0 {
      DivBounds(a, b);
    } else {
      var m := -a;
      DivBounds(m, b);
      NegateProduct(m / b, b);
      assert Quotient(a, b) == -(m / b);
    }
  }

  lemma NegateProduct(a: int, b: int)
    ensures (-a) * b == -(a * b)
  {
  }

  lemma MulMonotone(a: int, b: int, c: nat)
    requires a <= b
    ensures a * c <= b * c
  {
  }

  lemma ProductBelow(x: int, num: nat, bound: nat)
    requires num > 0
    ensures x <= bound / num <==> x * num <= bound
  {
    var high := bound / num;
    DivBounds(bound, num);
    if x > high {
      MulMonotone(high + 1, x, num);
      assert (high + 1) * num == high * num + num;
    } else {
      MulMonotone(x, high, num);
    }
  }

  /** The test on the quotient of the bound is the test on the product. */
  lemma ProductWithin(x: int, num: nat, r: Rep)
    requires IsRep(r) && num > 0
    ensures Quotient(Min(r), num) <= x <= Quotient(Max(r), num) <==> Fits(r, x * num)
  {
    var below, above := -Min(r), Max(r);
    ProductBelow(x, num, above);
    ProductBelow(-x, num, below);
    NegateProduct(x, num);
    assert Quotient(Min(r), num) == -(below / num);
    assert Quotient(Max(r), num) == above / num;
  }

  /** A multiplication that may be done in `r`: both the operand and the product fit. */
  function Times(r: Rep, a: int, b: int): int
    requires Fits(r, a) && Fits(r, a * b)
  {
    a * b
  }

  lemma QuotientShrinks(r: Rep, a: int, den: nat)
    requires IsRep(r) && Fits(r, a) && den > 0
    ensures Fits(r, Quotient(a, den))
  {
    QuotientTowardZero(a, den);
    var q := Quotient(a, den);
    if a >= 0 {
      MulMonotone(1, den, q);
    } else {
      MulMonotone(1, den, -q);
      NegateProduct(q, den);
    }
  }

  /** The multiplication by the numerator, tested against both bounds first. */
  method ScaleUp(r: Rep, num: nat, from: int) returns (count: int, ec: bool)
    requires IsRep(r) && Fits(r, from) && 0 < num
    ensures ec <==> !Fits(r, from * num)
    ensures !ec ==> count == from * num
  {
    count, ec := from, false;
    if num != 1 {
      ProductWithin(count, num, r);
      var max1 := Quotient(Max(r), num);
      if count > max1 {
        return 0, true;
      }
      var min1 := Quotient(Min(r), num);
      if count < min1 {
        return 0, true;
      }
      count := Times(r, count, num);
    }
  }

  /** Converts `from` ticks into ticks of another length, `num / den` of the new to one of the old. It reports an
      error exactly when the count does not fit the intermediate type, or the product does not, or the quotient does
      not fit the target; otherwise it returns the exact quotient toward zero. */
  method DurationCast(fromRep: Rep, toRep: Rep, num: nat, den: nat, from: int) returns (to: int, ec: bool)
    requires IsRep(fromRep) && IsRep(toRep) && Fits(fromRep, from)
    requires 0 < num <= Max(Rep(63, true)) && 0 < den <= Max(Rep(63, true))
    ensures var r := IntermediateRep(fromRep, toRep);
            ec <==> !Fits(r, from) || !Fits(r, from * num) || !Fits(toRep, Quotient(from * num, den))
    ensures to == if ec then 0 else Quotient(from * num, den)
  {
    var r := IntermediateRep(fromRep, toRep);
    var count;
    count, ec := LosslessIntegralConversion(fromRep, r, from);
    if ec {
      return 0, ec;
    }
    count, ec := ScaleUp(r, num, count);
    if ec {
      return 0, ec;
    }
    QuotientShrinks(r, count, den);
    if den != 1 {
      count := Quotient(count, den);
    }
    to, ec := LosslessIntegralConversion(r, toRep, count);
  }

  /** The count itself is refused only when it is negative and on its way to an unsigned 64-bit target. */
  lemma IntermediateTakes(fromRep: Rep, toRep: Rep, from: int)
    requires IsRep(fromRep) && IsRep(toRep) && Fits(fromRep, from)
    ensures Fits(IntermediateRep(fromRep, toRep), from) <==> from >= 0 || toRep != Rep(64, false)
  {
    Pow2Grows(fromRep.digits, if fromRep.signed || fromRep.digits < 64 then 63 else 64);
    Pow2Grows(63, 64);
  }
}
