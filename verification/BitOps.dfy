/**
 The bit operations of C on numbers: `|`, `&` and `>>`, and what they amount to in arithmetic.
 */
module BitOps {
  import Arithmetic

  // Bitwise `or` of two numbers.
  function Or(a: nat, b: nat): (c: nat)
    ensures a == 0 ==> c == b
    ensures b == 0 ==> c == a
    decreases a + b
  {
    if a == 0 then b else if b == 0 then a
    else 2 * Or(a / 2, b / 2) + if a % 2 == 0 && b % 2 == 0 then 0 else 1
  }

  // Bitwise `and`.
  function And(a: nat, b: nat): (c: nat)
    ensures c <= a && c <= b
    decreases a + b
  {
    if a == 0 || b == 0 then 0
    else 2 * And(a / 2, b / 2) + if a % 2 == 1 && b % 2 == 1 then 1 else 0
  }

  function Pow2(k: nat): (p: nat)
    ensures p >= 1
  {
    if k == 0 then 1 else 2 * Pow2(k - 1)
  }

  lemma {:induction false} OrStep(a: nat, b: nat)
    ensures Or(a, b) / 2 == Or(a / 2, b / 2)
    ensures Or(a, b) % 2 == if a % 2 == 0 && b % 2 == 0 then 0 else 1
  {
  }

  lemma {:induction false} AndStep(a: nat, b: nat)
    ensures And(a, b) / 2 == And(a / 2, b / 2)
    ensures And(a, b) % 2 == if a % 2 == 1 && b % 2 == 1 then 1 else 0
  {
  }

  predicate Bit(a: nat, i: nat)
    decreases i
  {
    if i == 0 then a % 2 == 1 else Bit(a / 2, i - 1)
  }

  lemma {:induction false} BitOfOr(a: nat, b: nat, i: nat)
    ensures Bit(Or(a, b), i) <==> Bit(a, i) || Bit(b, i)
    decreases i
  {
    OrStep(a, b);
    if i > 0 {
      BitOfOr(a / 2, b / 2, i - 1);
    }
  }

  lemma {:induction false} OrStaysBelow(a: nat, b: nat, bits: nat)
    requires a < Pow2(bits) && b < Pow2(bits)
    ensures Or(a, b) < Pow2(bits)
    decreases bits
  {
    if bits == 0 {
    } else {
      OrStep(a, b);
      OrStaysBelow(a / 2, b / 2, bits - 1);
    }
  }

  // A left shift.
  function ShiftLeft(a: nat, k: nat): (r: nat)
    ensures r >= a
    decreases k
  {
    if k == 0 then a else 2 * ShiftLeft(a, k - 1)
  }

  lemma ShiftLeftTen(a: nat)
    ensures ShiftLeft(a, 6) == 64 * a && ShiftLeft(a, 10) == 0x400 * a
    ensures Pow2(6) == 64 && Pow2(10) == 0x400
  {
    assert ShiftLeft(a, 3) == 8 * a && Pow2(3) == 8;
    assert ShiftLeft(a, 6) == 64 * a && Pow2(6) == 64;
    assert ShiftLeft(a, 8) == 256 * a && Pow2(8) == 256;
  }

  lemma {:induction false} ShiftZero(k: nat)
    ensures ShiftLeft(0, k) == 0
  {
    if k == 0 {
    } else {
      ShiftZero(k - 1);
    }
  }

  lemma Halves(high: nat, low: nat, m: nat, k: nat)
    requires k > 0 && low < Pow2(k)
    ensures low / 2 < Pow2(k - 1)
    ensures ShiftLeft(high, k) + low == 2 * (ShiftLeft(high, k - 1) + low / 2) + low % 2
    ensures ShiftLeft(m, k) == 2 * ShiftLeft(m, k - 1)
    ensures ShiftLeft(m, k) + Pow2(k) - 1 == 2 * (ShiftLeft(m, k - 1) + Pow2(k - 1) - 1) + 1
  {
  }

  // `or` with a shifted number works on the upper bits only.
  lemma {:induction false} OrShifted(x: nat, y: nat, high: nat, low: nat, m: nat, k: nat)
    requires low < Pow2(k) && x == ShiftLeft(high, k) + low && y == ShiftLeft(m, k)
    ensures Or(x, y) == ShiftLeft(Or(high, m), k) + low
    decreases k
  {
    if k == 0 {
    } else {
      Halves(high, low, m, k);
      OrShifted(x / 2, y / 2, high, low / 2, m, k - 1);
      OrStep(x, y);
    }
  }

  // `and` with a shifted mask and ones below it, too.
  lemma {:induction false} AndShifted(x: nat, y: nat, high: nat, low: nat, m: nat, k: nat)
    requires low < Pow2(k) && x == ShiftLeft(high, k) + low && y == ShiftLeft(m, k) + Pow2(k) - 1
    ensures And(x, y) == ShiftLeft(And(high, m), k) + low
    decreases k
  {
    if k == 0 {
    } else {
      Halves(high, low, m, k);
      AndShifted(x / 2, y / 2, high, low / 2, m, k - 1);
      AndStep(x, y);
    }
  }

  // `or` of a number of `k` bits and a shifted number is their sum.
  lemma OrDisjoint(low: nat, m: nat, k: nat)
    requires low < Pow2(k)
    ensures Or(low, ShiftLeft(m, k)) == ShiftLeft(m, k) + low
  {
    ShiftZero(k);
    OrShifted(low, ShiftLeft(m, k), 0, low, m, k);
  }

  lemma {:induction false} OrCommutes(a: nat, b: nat)
    ensures Or(a, b) == Or(b, a)
    decreases a
  {
    if a == 0 {
    } else {
      OrStep(a, b);
      OrStep(b, a);
      OrCommutes(a / 2, b / 2);
    }
  }

  // The marks of the first byte of a UTF-8 sequence.
  lemma FirstByteMarked(a: nat)
    ensures a < 0x40 ==> Or(a, 0xC0) == 0xC0 + a
    ensures a < 0x20 ==> Or(a, 0xE0) == 0xE0 + a
    ensures a < 0x10 ==> Or(a, 0xF0) == 0xF0 + a
  {
    ShiftedMarks();
    if a < 0x40 { OrDisjoint(a, 3, 6); }
    if a < 0x20 { OrDisjoint(a, 7, 5); }
    if a < 0x10 { OrDisjoint(a, 15, 4); }
  }

  lemma ShiftedMarks()
    ensures ShiftLeft(3, 6) == 0xC0 && ShiftLeft(7, 5) == 0xE0 && ShiftLeft(15, 4) == 0xF0
    ensures Pow2(6) == 0x40 && Pow2(5) == 0x20 && Pow2(4) == 0x10
  {
    ShiftLeftTen(3);
    assert ShiftLeft(7, 3) == 56 && ShiftLeft(15, 3) == 120;
    assert Pow2(3) == 8;
  }

  lemma TenBits(a: nat)
    ensures And(a, 0x3FF) == a % 0x400
  {
    ShiftLeftTen(a / 0x400);
    ShiftZero(10);
    AndShifted(a, 0x3FF, a / 0x400, a % 0x400, 0, 10);
  }

  // Two groups of ten bits, one behind the other.
  lemma TenBitsJoined(a: nat, b: nat)
    ensures Or(ShiftLeft(And(a, 0x3FF), 10), And(b, 0x3FF)) == a % 0x400 * 0x400 + b % 0x400
  {
    TenBits(a);
    TenBits(b);
    Joined(a % 0x400, b % 0x400);
  }

  lemma Joined(high: nat, low: nat)
    requires low < 0x400
    ensures Or(ShiftLeft(high, 10), low) == high * 0x400 + low
  {
    ShiftLeftTen(high);
    OrDisjoint(low, high, 10);
    OrCommutes(low, ShiftLeft(high, 10));
  }

  // A right shift.
  function Shift(a: nat, k: nat): (r: nat)
    ensures r <= a
    decreases k
  {
    if k == 0 then a else Shift(a / 2, k - 1)
  }

  lemma {:induction false} BitOfShift(a: nat, k: nat, i: nat)
    ensures Bit(Shift(a, k), i) == Bit(a, i + k)
    decreases k
  {
    if k == 0 {
    } else {
      BitOfShift(a / 2, k - 1, i);
    }
  }

  lemma {:induction false} Pow2Sum(a: nat, b: nat)
    ensures Pow2(a + b) == Pow2(a) * Pow2(b)
    decreases a
  {
    if a == 0 {
    } else {
      Pow2Sum(a - 1, b);
    }
  }

  lemma {:induction false} ShiftIsDivision(a: nat, k: nat)
    ensures a / Pow2(k) == Shift(a, k)
    decreases k
  {
    if k == 0 {
    } else {
      ShiftIsDivision(a / 2, k - 1);
      DivideTwice(a, Pow2(k - 1));
    }
  }

  lemma DivideTwice(a: nat, p: nat)
    requires p > 0
    ensures a / 2 / p == a / (2 * p)
  {
    Arithmetic.PeriodOf(a / 2, p);
    var q := a / 2 / p;
    assert q * (2 * p) == 2 * (q * p);
    Arithmetic.Remainder(a, q, 2 * p);
  }

  // The continuation byte of UTF-8: six bits under the mark `10`.
  lemma SixBitsMarked(a: nat)
    ensures And(Or(a, 0x80), 0xBF) == 0x80 + a % 64
  {
    TwoBits(a / 64);
    Marked(a / 64, a % 64);
    ShiftLeftTen(2);
    assert a / 64 * 64 + a % 64 == a;
  }

  lemma Marked(high: nat, low: nat)
    requires low < 64 && And(Or(high, 2), 2) == 2
    ensures And(Or(high * 64 + low, 0x80), 0xBF) == 0x80 + low
  {
    ShiftLeftTen(high);
    ShiftLeftTen(2);
    OrShifted(high * 64 + low, 0x80, high, low, 2, 6);
    Masked(Or(high * 64 + low, 0x80), Or(high, 2), low);
  }

  lemma Masked(a: nat, high: nat, low: nat)
    requires low < 64 && a == ShiftLeft(high, 6) + low && And(high, 2) == 2
    ensures And(a, 0xBF) == 0x80 + low
  {
    ShiftLeftTen(2);
    AndShifted(a, 0xBF, high, low, 2, 6);
  }

  lemma TwoBits(a: nat)
    ensures And(Or(a, 2), 2) == 2
  {
    OrStep(a, 2);
    AndStep(Or(a, 2), 2);
    OrStep(a / 2, 1);
    AndStep(Or(a / 2, 1), 1);
  }
}
