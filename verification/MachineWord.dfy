/** 32-bit words and bytes as lists of bits, least significant first. */
module MachineWord {

  type Bits = seq<bool>
  type byte = bv8

  function Zeros(n: nat): (w: Bits)
    ensures |w| == n && forall i :: 0 <= i < n ==> !w[i]
  {
    seq(n, _ => false)
  }

  function Ones(n: nat): (w: Bits)
    ensures |w| == n && forall i :: 0 <= i < n ==> w[i]
  {
    seq(n, _ => true)
  }

  function Xor(a: Bits, b: Bits): (c: Bits)
    requires |a| == |b|
    ensures |c| == |a| && forall i :: 0 <= i < |a| ==> c[i] == (a[i] != b[i])
  {
    seq(|a|, i requires 0 <= i < |a| => a[i] != b[i])
  }

  /** Bit position i of a word; no bit from position 32 on. */
  function Mask(i: nat): bv32 {
    if i == 0 then 1 else Mask(i - 1) << 1
  }

  predicate Has(c: bv32, m: bv32) {
    c & m != 0
  }

  function Word(c: bv32): (w: Bits)
    ensures |w| == 32 && forall i :: 0 <= i < 32 ==> w[i] == Has(c, Mask(i))
  {
    seq(32, i requires 0 <= i < 32 => Has(c, Mask(i)))
  }

  function ByteBits(b: byte): (bits: Bits)
    ensures |bits| == 8
  {
    Word(b as bv32)[..8]
  }

  /** The bits of a byte string, in the order they are sent. */
  function BitsOf(data: seq<byte>): (bits: Bits)
    ensures |bits| == 8 * |data|
  {
    if data == [] then [] else ByteBits(data[0]) + BitsOf(data[1..])
  }

  // ----- Masks -----

  lemma {:induction false} MaskIsOneBit(i: nat)
    ensures Mask(i) & (Mask(i) - 1) == 0
  {
    if i > 0 {
      MaskIsOneBit(i - 1);
      ShiftedOneBit(Mask(i - 1));
    }
  }

  lemma ShiftedOneBit(m: bv32)
    requires m & (m - 1) == 0
    ensures (m << 1) & ((m << 1) - 1) == 0
  {
  }

  lemma MaskValues()
    ensures Mask(8) == 0x100 && Mask(31) == 0x80000000 && Mask(32) == 0
  {
    assert Mask(4) == 0x10;
    assert Mask(8) == 0x100;
    assert Mask(12) == 0x1000;
    assert Mask(16) == 0x10000;
    assert Mask(20) == 0x100000;
    assert Mask(24) == 0x1000000;
    assert Mask(28) == 0x10000000;
  }

  lemma {:induction false} HighMasksMissBytes(i: nat)
    requires i >= 8
    ensures Mask(i) & 0xFF == 0
  {
    MaskValues();
    if i > 8 {
      HighMasksMissBytes(i - 1);
    }
  }

  /** A word with none of the first n bits is clear below bit n. */
  lemma {:induction false} ClearBelow(c: bv32, n: nat)
    requires forall i :: 0 <= i < n ==> !Has(c, Mask(i))
    ensures BelowClear(c, Mask(n))
  {
    if n > 0 {
      ClearBelow(c, n - 1);
      hide BelowClear, Has;
      MaskIsOneBit(n - 1);
      ClearOneMore(c, Mask(n - 1));
    }
  }

  predicate BelowClear(c: bv32, m: bv32) {
    c & (m - 1) == 0
  }

  lemma ClearOneMore(c: bv32, m: bv32)
    requires m & (m - 1) == 0
    requires !Has(c, m) && BelowClear(c, m)
    ensures BelowClear(c, m << 1)
  {
  }

  // ----- The bits of the word operations -----

  lemma HasXor(a: bv32, b: bv32, m: bv32)
    requires m & (m - 1) == 0
    ensures Has(a ^ b, m) == (Has(a, m) != Has(b, m))
  {
  }

  lemma WordXor(a: bv32, b: bv32)
    ensures Word(a ^ b) == Xor(Word(a), Word(b))
  {
    hide Has, Mask, Word;
    forall i | 0 <= i < 32
      ensures Has(a ^ b, Mask(i)) == (Has(a, Mask(i)) != Has(b, Mask(i)))
    {
      MaskIsOneBit(i);
      HasXor(a, b, Mask(i));
    }
  }

  predicate IsHalf(half: bv32, c: bv32) {
    half == c >> 1
  }

  predicate IsDouble(double: bv32, m: bv32) {
    double == m << 1
  }

  lemma HasShifted(c: bv32, half: bv32, m: bv32, double: bv32)
    requires IsHalf(half, c) && IsDouble(double, m)
    ensures Has(half, m) == Has(c, double)
  {
  }

  lemma MaskNext(i: nat)
    ensures IsDouble(Mask(i + 1), Mask(i))
  {
  }

  lemma WordShift(c: bv32, half: bv32)
    requires IsHalf(half, c)
    ensures Word(half) == Word(c)[1..] + [false]
  {
    hide Has, Mask, Word, IsHalf, IsDouble;
    forall i | 0 <= i < 31
      ensures Word(half)[i] == Word(c)[i + 1]
    {
      MaskNext(i);
      HasShifted(c, half, Mask(i), Mask(i + 1));
    }
    TopClear(c, half);
  }

  lemma TopClear(c: bv32, half: bv32)
    requires IsHalf(half, c)
    ensures !Has(half, Mask(31))
  {
    MaskValues();
  }

  lemma WordOfByte(b: byte)
    ensures Word(b as bv32) == ByteBits(b) + Zeros(24)
  {
    var w := Word(b as bv32);
    forall i | 8 <= i < 32
      ensures !w[i]
    {
      HighMasksMissBytes(i);
      ByteMisses(b, Mask(i));
    }
  }

  lemma ByteMisses(b: byte, m: bv32)
    requires m & 0xFF == 0
    ensures !Has(b as bv32, m)
  {
  }

  lemma WordInjective(a: bv32, b: bv32)
    requires Word(a) == Word(b)
    ensures a == b
  {
    forall i | 0 <= i < 32
      ensures !Has(a ^ b, Mask(i))
    {
      hide Has, Mask, Word;
      MaskIsOneBit(i);
      HasXor(a, b, Mask(i));
      assert Word(a)[i] == Word(b)[i];
    }
    ClearBelow(a ^ b, 32);
    MaskValues();
    XorZero(a, b);
  }

  lemma XorZero(a: bv32, b: bv32)
    requires (a ^ b) & 0xFFFFFFFF == 0
    ensures a == b
  {
  }

  lemma WordOfOnes()
    ensures Word(0xFFFFFFFF) == Ones(32)
  {
    forall i | 0 <= i < 32
      ensures Has(0xFFFFFFFF, Mask(i))
    {
      if !Has(0xFFFFFFFF, Mask(i)) {
        assert Mask(i) == 0;
        MaskNonzero(i);
        assert false;
      }
    }
  }

  lemma {:induction false} MaskNonzero(i: nat)
    requires i < 32
    ensures Mask(i) != 0
    decreases 32 - i
  {
    MaskValues();
    if i < 31 {
      MaskNonzero(i + 1);
    }
  }

  lemma ByteBitsInjective(a: byte, b: byte)
    requires ByteBits(a) == ByteBits(b)
    ensures a == b
  {
    WordOfByte(a);
    WordOfByte(b);
    WordInjective(a as bv32, b as bv32);
    SameBytes(a, b);
  }

  lemma SameBytes(a: byte, b: byte)
    requires a as bv32 == b as bv32
    ensures a == b
  {
  }

  lemma {:induction false} BitsOfAt(data: seq<byte>, i: nat, j: nat)
    requires i < |data| && j < 8
    ensures BitsOf(data)[8 * i + j] == ByteBits(data[i])[j]
  {
    hide ByteBits;
    if i > 0 {
      BitsOfAt(data[1..], i - 1, j);
    }
  }
}
