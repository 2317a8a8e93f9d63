/**
 The bit array of sgg_bitmap.cpp: one bit per position, eight to a byte, highest bit first.
 */
module Bitmap {

  // `0x80 >> k`, by table.
  function Mask(k: nat): (m: bv8)
    requires k < 8
    ensures m != 0
  {
    if k < 4 then (if k == 0 then 0x80 else if k == 1 then 0x40 else if k == 2 then 0x20 else 0x10)
    else if k == 4 then 0x08 else if k == 5 then 0x04 else if k == 6 then 0x02 else 0x01
  }

  lemma MaskIsShift(k: nat)
    requires k < 8
    ensures Mask(k) == (0x80 as bv8) >> k
  {
  }

  // The test of `bit_get`, and the assignment of `bit_set`.
  predicate TestMask(b: bv8, mask: bv8) { mask & b == mask }

  function PutMask(b: bv8, mask: bv8, value: bool): bv8 { if value then b | mask else b & !mask }

  predicate Test(b: bv8, k: nat)
    requires k < 8
  {
    TestMask(b, Mask(k))
  }

  function Put(b: bv8, k: nat, value: bool): bv8
    requires k < 8
  {
    PutMask(b, Mask(k), value)
  }

  lemma MasksAreDisjoint(k: nat, j: nat)
    requires k < 8 && j < 8
    ensures k != j ==> Mask(k) & Mask(j) == 0
  {
  }

  lemma TestOwnMask(b: bv8, mask: bv8, value: bool)
    requires mask != 0
    ensures TestMask(PutMask(b, mask, value), mask) == value
  {
  }

  lemma TestOtherMask(b: bv8, mask: bv8, value: bool, other: bv8)
    requires mask & other == 0
    ensures TestMask(PutMask(b, mask, value), other) == TestMask(b, other)
  {
  }

  lemma TestAfterPut(b: bv8, k: nat, value: bool, j: nat)
    requires k < 8 && j < 8
    ensures Test(Put(b, k, value), j) == if j == k then value else Test(b, j)
  {
    if j == k {
      TestOwnMask(b, Mask(k), value);
    } else {
      MasksAreDisjoint(k, j);
      TestOtherMask(b, Mask(k), value, Mask(j));
    }
  }

  // The truth value of every position below `length`.
  ghost function Positions(bytes: seq<bv8>, length: nat): (v: seq<bool>)
    requires length <= 8 * |bytes|
    ensures |v| == length
  {
    seq(length, i requires 0 <= i < length => Test(bytes[i / 8], i % 8))
  }

  lemma PutSetsOnePosition(bytes: seq<bv8>, length: nat, pos: nat, value: bool)
    requires pos < length <= 8 * |bytes|
    ensures var p := pos / 8;
            Positions(bytes[p := Put(bytes[p], pos % 8, value)], length) == Positions(bytes, length)[pos := value]
  {
    var p := pos / 8;
    var bytes' := bytes[p := Put(bytes[p], pos % 8, value)];
    forall i | 0 <= i < length
      ensures Positions(bytes', length)[i] == Positions(bytes, length)[pos := value][i]
    {
      if i / 8 == p {
        TestAfterPut(bytes[p], pos % 8, value, i % 8);
      }
    }
  }

  class Bits {
    const bits: array<bv8>
    const length: nat

    ghost predicate Valid() {
      bits.Length == length / 8 + 1
    }

    ghost function View(): (v: seq<bool>)
      requires Valid()
      reads bits
      ensures |v| == length
    {
      Positions(bits[..], length)
    }

    constructor (length: nat)
      ensures Valid() && this.length == length && fresh(bits)
      ensures View() == seq(length, _ => false)
    {
      bits := new bv8[length / 8 + 1](_ => 0);
      this.length := length;
      new;
      ClearedTest(bits[..], length);
    }

    method Set(pos: nat, value: bool)
      requires Valid()
      modifies bits
      ensures View() == if pos < length then old(View())[pos := value] else old(View())
    {
      if pos >= length {
        return;
      }
      PutSetsOnePosition(bits[..], length, pos, value);
      ghost var before := bits[..];
      var mask := (0x80 as bv8) >> (pos % 8);
      MaskIsShift(pos % 8);
      bits[pos / 8] := PutMask(bits[pos / 8], mask, value);
      assert bits[..] == before[pos / 8 := Put(before[pos / 8], pos % 8, value)];
    }

    method Get(pos: nat) returns (b: bool)
      requires Valid()
      ensures b == (pos < length && View()[pos])
    {
      if pos >= length {
        return false;
      }
      var mask := (0x80 as bv8) >> (pos % 8);
      MaskIsShift(pos % 8);
      b := TestMask(bits[pos / 8], mask);
    }

    method Clear()
      requires Valid()
      modifies bits
      ensures View() == seq(length, _ => false)
    {
      for i := 0 to bits.Length
        invariant forall j :: 0 <= j < i ==> bits[j] == 0
      {
        bits[i] := 0;
      }
      ClearedTest(bits[..], length);
    }
  }

  lemma ClearedTest(bytes: seq<bv8>, length: nat)
    requires length <= 8 * |bytes| && forall b :: b in bytes ==> b == 0
    ensures Positions(bytes, length) == seq(length, _ => false)
  {
    forall i | 0 <= i < length
      ensures !Positions(bytes, length)[i]
    {
      assert bytes[i / 8] in bytes;
    }
  }
}
