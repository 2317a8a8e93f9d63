/**
 `pow2gt` (cJSON.cpp:117): the size of a grown print buffer, computed by smearing the highest one
 bit over all lower ones.
 */
module PowerOfTwo {
  import opened BitOps

  function Pow2gt(x: nat): nat
    requires x >= 1
  {
    var a := x - 1;
    var b := Or(a, a / 2);
    var c := Or(b, b / 4);
    var d := Or(c, c / 16);
    var e := Or(d, d / 256);
    var f := Or(e, e / 65536);
    f + 1
  }

  lemma Powers()
    ensures Pow2(1) == 2 && Pow2(2) == 4 && Pow2(4) == 16 && Pow2(8) == 256 && Pow2(16) == 65536
    ensures Pow2(30) == 0x4000_0000
  {
    assert Pow2(4) == 16;
    Pow2Sum(4, 4);
    assert Pow2(8) == 256;
    Pow2Sum(8, 8);
    Pow2Sum(8, 6);
    assert Pow2(6) == 64;
    Pow2Sum(16, 14);
  }

  // ----- Smearing -----

  // The number of bits of `a`.
  function Width(a: nat): (w: nat)
    ensures a < Pow2(w)
    ensures w > 0 ==> Pow2(w - 1) <= a
  {
    if a == 0 then 0 else 1 + Width(a / 2)
  }

  // `a` has `bits` bits, and the upper `top` of them are ones.
  ghost predicate Ones(a: nat, bits: nat, top: nat) {
    a < Pow2(bits) && forall i :: 0 <= i < bits && bits <= i + top ==> Bit(a, i)
  }

  lemma {:induction false} TopBit(a: nat)
    requires a > 0
    ensures Bit(a, Width(a) - 1)
  {
    if a == 1 {
    } else {
      TopBit(a / 2);
    }
  }

  lemma Smear(a: nat, bits: nat, top: nat)
    requires Ones(a, bits, top)
    ensures Ones(Or(a, Shift(a, top)), bits, 2 * top)
  {
    var b := Or(a, Shift(a, top));
    OrStaysBelow(a, Shift(a, top), bits);
    forall i | 0 <= i < bits && bits <= i + 2 * top
      ensures Bit(b, i)
    {
      BitOfOr(a, Shift(a, top), i);
      BitOfShift(a, top, i);
      if bits > i + top {
        assert Bit(a, i + top);
      }
    }
  }

  lemma {:induction false} AllOnes(a: nat, bits: nat)
    requires Ones(a, bits, bits)
    ensures a == Pow2(bits) - 1
    decreases bits
  {
    if bits == 0 {
    } else {
      assert Bit(a, 0);
      forall i | 0 <= i < bits - 1
        ensures Bit(a / 2, i)
      {
        assert Bit(a, i + 1);
      }
      AllOnes(a / 2, bits - 1);
    }
  }

  lemma SmearedIs(x: nat)
    requires x >= 1 && Width(x - 1) <= 32
    ensures Pow2gt(x) == Pow2(Width(x - 1))
  {
    var a: nat := x - 1;
    var w := Width(a);
    if a > 0 {
      TopBit(a);
    }
    Powers();
    var b := Or(a, a / 2);
    var c := Or(b, b / 4);
    var d := Or(c, c / 16);
    var e := Or(d, d / 256);
    SmearBy(a, w, 1);
    SmearBy(b, w, 2);
    SmearBy(c, w, 4);
    SmearBy(d, w, 8);
    SmearBy(e, w, 16);
    AllOnes(Or(e, e / 65536), w);
  }

  lemma SmearBy(a: nat, bits: nat, top: nat)
    requires Ones(a, bits, top)
    ensures Ones(Or(a, a / Pow2(top)), bits, 2 * top)
  {
    ShiftIsDivision(a, top);
    Smear(a, bits, top);
  }

  // `pow2gt` gives the least power of two that is not below its argument.
  lemma Pow2gtIsLeast(x: nat)
    requires 1 <= x <= 0x4000_0000
    ensures exists k: nat :: Pow2gt(x) == Pow2(k)
    ensures x <= Pow2gt(x) <= 0x4000_0000
    ensures forall k: nat :: x <= Pow2(k) ==> Pow2gt(x) <= Pow2(k)
  {
    var w := Width(x - 1);
    Powers();
    if w > 30 {
      Grows(30, w - 1);
    }
    SmearedIs(x);
    forall k: nat | x <= Pow2(k)
      ensures Pow2(w) <= Pow2(k)
    {
      if w > k {
        Grows(k, w - 1);
      } else {
        Grows(w, k);
      }
    }
    assert x <= Pow2(30);
  }

  lemma {:induction false} Grows(j: nat, k: nat)
    requires j <= k
    ensures Pow2(j) <= Pow2(k)
    decreases k
  {
    if j == k {
    } else {
      Grows(j, k - 1);
    }
  }
}
