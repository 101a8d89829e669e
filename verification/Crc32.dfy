/** The header and payload checksum of a PLDM package: the reflected CRC-32 of
    section 8 of RFC 1952, as the bit-at-a-time loop over a 32-bit register. */
module Crc32 {
  import opened MachineWord

  const POLY: bv32 := 0xEDB88320
  const INIT: bv32 := 0xFFFFFFFF

  // ----- The checksum as the program computes it -----

  function BitStep(crc: bv32): bv32 {
    (crc >> 1) ^ (POLY & (0 - (crc & 1)))
  }

  function BitSteps(crc: bv32, n: nat): bv32
    decreases n
  {
    if n == 0 then crc else BitSteps(BitStep(crc), n - 1)
  }

  function Update(crc: bv32, data: seq<byte>): bv32
    decreases |data|
  {
    if data == [] then crc else Update(BitSteps(crc ^ (data[0] as bv32), 8), data[1..])
  }

  function Checksum(data: seq<byte>): bv32 {
    !Update(INIT, data)
  }

  method Crc32Update(crc0: bv32, data: seq<byte>) returns (crc: bv32)
    ensures crc == Update(crc0, data)
  {
    hide BitStep;
    crc := crc0;
    for i := 0 to |data|
      invariant Update(crc0, data) == Update(crc, data[i..])
    {
      ghost var rest := data[i..];
      assert rest[0] == data[i] && rest[1..] == data[i + 1..];
      crc := crc ^ (data[i] as bv32);
      for j := 0 to 8
        invariant Update(crc0, data) == Update(BitSteps(crc, 8 - j), rest[1..])
      {
        ghost var before := crc;
        crc := (crc >> 1) ^ (POLY & (0 - (crc & 1)));
        BitStepIs(before, crc);
      }
    }
  }

  lemma BitStepIs(crc: bv32, next: bv32)
    requires next == (crc >> 1) ^ (POLY & (0 - (crc & 1)))
    ensures next == BitStep(crc)
  {
  }

  method ComputeCrc32(data: seq<byte>) returns (crc: bv32)
    ensures crc == Checksum(data)
  {
    var state := Crc32Update(0xFFFFFFFF, data);
    crc := !state;
  }

  /** Folding a payload chunk by chunk is folding it in one pass. */
  lemma {:induction false} UpdateConcat(crc: bv32, a: seq<byte>, b: seq<byte>)
    ensures Update(crc, a + b) == Update(Update(crc, a), b)
    decreases |a|
  {
    hide BitSteps;
    if a == [] {
      assert a + b == b;
    } else {
      assert (a + b)[1..] == a[1..] + b;
      UpdateConcat(BitSteps(crc ^ (a[0] as bv32), 8), a[1..], b);
    }
  }

  // ----- The register as bits, fed one bit at a time -----

  type Register = w: Bits | |w| == 32 witness Zeros(32)

  /** The generator polynomial: whether it has the term x to the e. */
  predicate Generator(e: int) {
    || e == 32 || e == 26 || e == 23 || e == 22 || e == 16 || e == 12 || e == 11 || e == 10
    || e == 8 || e == 7 || e == 5 || e == 4 || e == 2 || e == 1 || e == 0
  }

  /** Bit i of the register stands for the coefficient of x to the 31 - i. */
  function Taps(): (w: Register)
    ensures forall i :: 0 <= i < 32 ==> w[i] == Generator(31 - i)
  {
    seq(32, i requires 0 <= i < 32 => Generator(31 - i))
  }

  function Step(w: Register): Register {
    Xor(w[1..] + [false], if w[0] then Taps() else Zeros(32))
  }

  function Steps(w: Register, n: nat): Register
    decreases n
  {
    if n == 0 then w else Steps(Step(w), n - 1)
  }

  function Feed(w: Register, b: bool): Register {
    Step(w[0 := w[0] != b])
  }

  function Fold(w: Register, bits: Bits): Register
    decreases |bits|
  {
    if bits == [] then w else Fold(Feed(w, bits[0]), bits[1..])
  }

  lemma {:induction false} FoldConcat(w: Register, a: Bits, b: Bits)
    ensures Fold(w, a + b) == Fold(Fold(w, a), b)
    decreases |a|
  {
    hide Feed;
    if a == [] {
      assert a + b == b;
    } else {
      assert (a + b)[1..] == a[1..] + b;
      FoldConcat(Feed(w, a[0]), a[1..], b);
    }
  }

  lemma WordOfPoly()
    ensures Word(POLY) == Taps()
  {
    assert Mask(4) == 0x10;
    assert Mask(8) == 0x100;
    assert Mask(12) == 0x1000;
    assert Mask(16) == 0x10000;
    assert Mask(20) == 0x100000;
    assert Mask(24) == 0x1000000;
    assert Mask(28) == 0x10000000;
  }

  lemma WordOfFeedback(crc: bv32, feedback: bv32)
    requires feedback == POLY & (0 - (crc & 1))
    ensures Word(feedback) == if Word(crc)[0] then Taps() else Zeros(32)
  {
    assert Mask(0) == 1;
    if crc & 1 != 0 {
      assert crc & 1 == 1;
      assert feedback == POLY;
      WordOfPoly();
    } else {
      assert feedback == 0;
    }
  }

  lemma WordOfStepAt(crc: bv32, half: bv32, feedback: bv32, next: bv32)
    requires half == crc >> 1
    requires feedback == POLY & (0 - (crc & 1))
    requires next == half ^ feedback
    ensures Word(next) == Step(Word(crc))
  {
    hide Word, Taps;
    WordShift(crc, half);
    WordOfFeedback(crc, feedback);
    WordXor(half, feedback);
  }

  lemma WordOfStep(crc: bv32)
    ensures Word(BitStep(crc)) == Step(Word(crc))
  {
    hide Word, Step;
    WordOfStepAt(crc, crc >> 1, POLY & (0 - (crc & 1)), BitStep(crc));
  }

  lemma {:induction false} WordOfSteps(crc: bv32, n: nat)
    ensures Word(BitSteps(crc, n)) == Steps(Word(crc), n)
    decreases n
  {
    hide Word, BitStep, Step;
    if n > 0 {
      WordOfStep(crc);
      WordOfSteps(BitStep(crc), n - 1);
    }
  }

  /** w with the given bits XOR-ed in from position 0 up. */
  function Mixed(w: Register, bits: Bits): Register
    requires |bits| <= 32
  {
    Xor(w, bits + Zeros(32 - |bits|))
  }

  lemma StepOfMixed(w: Register, bits: Bits)
    requires 0 < |bits| <= 32
    ensures Step(Mixed(w, bits)) == Mixed(Feed(w, bits[0]), bits[1..])
  {
  }

  /** Feeding at most 32 bits one by one is mixing them in at once and stepping. */
  lemma {:induction false} FoldIsMixedSteps(w: Register, bits: Bits)
    requires |bits| <= 32
    ensures Fold(w, bits) == Steps(Mixed(w, bits), |bits|)
    decreases |bits|
  {
    if bits == [] {
      assert Mixed(w, []) == w;
    } else {
      hide Step, Feed, Mixed;
      StepOfMixed(w, bits);
      FoldIsMixedSteps(Feed(w, bits[0]), bits[1..]);
    }
  }

  lemma WordOfMixedByte(crc: bv32, b: byte, mixed: bv32)
    requires mixed == crc ^ (b as bv32)
    ensures Word(mixed) == Mixed(Word(crc), ByteBits(b))
  {
    hide Word, ByteBits;
    WordXor(crc, b as bv32);
    WordOfByte(b);
  }

  /** The byte loop is the bit-serial register. */
  lemma {:induction false} UpdateIsFold(crc: bv32, data: seq<byte>)
    ensures Word(Update(crc, data)) == Fold(Word(crc), BitsOf(data))
    decreases |data|
  {
    hide Word, ByteBits, BitSteps, Steps, Mixed;
    if data != [] {
      var mixed := crc ^ (data[0] as bv32);
      WordOfMixedByte(crc, data[0], mixed);
      WordOfSteps(mixed, 8);
      FoldIsMixedSteps(Word(crc), ByteBits(data[0]));
      FoldConcat(Word(crc), ByteBits(data[0]), BitsOf(data[1..]));
      UpdateIsFold(BitSteps(mixed, 8), data[1..]);
    }
  }

  // ----- Linearity and injectivity -----

  /** The register is linear over XOR, in its start value and in its input. */
  lemma {:induction false} FoldLinear(v: Register, a: Bits, w: Register, b: Bits)
    requires |a| == |b|
    ensures Fold(Xor(v, w), Xor(a, b)) == Xor(Fold(v, a), Fold(w, b))
    decreases |a|
  {
    if a != [] {
      assert Xor(a, b)[1..] == Xor(a[1..], b[1..]);
      assert Feed(Xor(v, w), Xor(a, b)[0]) == Xor(Feed(v, a[0]), Feed(w, b[0]));
      FoldLinear(Feed(v, a[0]), a[1..], Feed(w, b[0]), b[1..]);
    }
  }

  /** The register before a step: the bit shifted out is the top bit shifted in. */
  function Unstep(w: Register): Register {
    [w[31]] + Xor(w, if w[31] then Taps() else Zeros(32))[..31]
  }

  lemma UnstepStep(w: Register)
    ensures Unstep(Step(w)) == w
  {
    assert Taps()[31];
    hide Generator, Taps;
    assert Step(w)[31] == w[0];
    assert Unstep(Step(w))[1..] == w[1..];
  }

  lemma StepUnstep(w: Register)
    ensures Step(Unstep(w)) == w
  {
    assert Taps()[31];
    hide Generator, Taps;
    assert Unstep(w)[0] == w[31];
    assert Step(Unstep(w))[..31] == w[..31];
  }

  lemma ZeroIsFixed()
    ensures Step(Zeros(32)) == Zeros(32) == Unstep(Zeros(32))
  {
  }

  lemma {:induction false} StepsKeepNonzero(w: Register, n: nat)
    requires w != Zeros(32)
    ensures Steps(w, n) != Zeros(32)
    decreases n
  {
    hide Step, Unstep;
    if n > 0 {
      UnstepStep(w);
      ZeroIsFixed();
      StepsKeepNonzero(Step(w), n - 1);
    }
  }

  lemma {:induction false} StepsOfZero(n: nat)
    ensures Steps(Zeros(32), n) == Zeros(32)
  {
    hide Step;
    if n > 0 {
      ZeroIsFixed();
      StepsOfZero(n - 1);
    }
  }

  lemma {:induction false} FoldOfZeros(w: Register, n: nat)
    ensures Fold(w, Zeros(n)) == Steps(w, n)
    decreases n
  {
    if n > 0 {
      assert Zeros(n)[1..] == Zeros(n - 1);
      assert Feed(w, false) == Step(w);
      FoldOfZeros(Step(w), n - 1);
    }
  }

  // ----- Burst errors -----

  /** a and b differ, and only inside the 32 consecutive bits from k. */
  ghost predicate DifferInBurst(a: Bits, b: Bits, k: nat) {
    && |a| == |b|
    && a != b
    && forall i :: 0 <= i < |a| && !(k <= i < k + 32) ==> a[i] == b[i]
  }

  lemma ShortWordLeavesNonzero(bits: Bits)
    requires |bits| <= 32 && bits != Zeros(|bits|)
    ensures Fold(Zeros(32), bits) != Zeros(32)
  {
    var at :| 0 <= at < |bits| && bits[at];
    FoldIsMixedSteps(Zeros(32), bits);
    assert Mixed(Zeros(32), bits)[at];
    StepsKeepNonzero(Mixed(Zeros(32), bits), |bits|);
  }

  lemma FoldPadded(word: Bits, before: nat, after: nat)
    ensures Fold(Zeros(32), Zeros(before) + (word + Zeros(after))) == Steps(Fold(Zeros(32), word), after)
  {
    hide Fold, Steps;
    FoldConcat(Zeros(32), Zeros(before), word + Zeros(after));
    FoldOfZeros(Zeros(32), before);
    StepsOfZero(before);
    FoldConcat(Zeros(32), word, Zeros(after));
    FoldOfZeros(Fold(Zeros(32), word), after);
  }

  lemma BurstAlone(x: Bits, k: nat, end: nat)
    requires x != Zeros(|x|) && end <= |x|
    requires forall i :: 0 <= i < |x| && x[i] ==> k <= i < end
    ensures k < end && x[k..end] != Zeros(end - k)
    ensures x == Zeros(k) + (x[k..end] + Zeros(|x| - end))
  {
    var at :| 0 <= at < |x| && x[at];
    assert x[k..end][at - k];
  }

  /** A nonzero word of at most 32 bits in a run of zeros leaves a nonzero register. */
  lemma BurstLeavesNonzero(x: Bits, k: nat)
    requires x != Zeros(|x|)
    requires forall i :: 0 <= i < |x| && x[i] ==> k <= i < k + 32
    ensures Fold(Zeros(32), x) != Zeros(32)
  {
    hide Fold, Steps;
    var end := if k + 32 <= |x| then k + 32 else |x|;
    BurstAlone(x, k, end);
    var word, after := x[k..end], |x| - end;
    FoldPadded(word, k, after);
    ShortWordLeavesNonzero(word);
    StepsKeepNonzero(Fold(Zeros(32), word), after);
  }

  /** Every corruption confined to 32 consecutive bits changes the checksum. */
  lemma BurstErrorDetected(sent: seq<byte>, received: seq<byte>, k: nat)
    requires DifferInBurst(BitsOf(sent), BitsOf(received), k)
    ensures Checksum(sent) != Checksum(received)
  {
    hide Word, Update, Fold;
    var a, b := BitsOf(sent), BitsOf(received);
    var start := Word(INIT);
    assert Xor(a, b) != Zeros(|a|) by {
      var at :| 0 <= at < |a| && a[at] != b[at];
      assert Xor(a, b)[at];
    }
    BurstLeavesNonzero(Xor(a, b), k);
    FoldLinear(start, a, start, b);
    assert Xor(start, start) == Zeros(32);
    UpdateIsFold(INIT, sent);
    UpdateIsFold(INIT, received);
    assert Fold(start, a) != Fold(start, b) by {
      assert Xor(Fold(start, a), Fold(start, a)) == Zeros(32);
    }
    if Checksum(sent) == Checksum(received) {
      ComplementInjective(Update(INIT, sent), Update(INIT, received));
    }
  }

  lemma ComplementInjective(a: bv32, b: bv32)
    requires !a == !b
    ensures a == b
  {
    assert !!a == a && !!b == b;
  }

  /** In particular, every corruption confined to 4 consecutive bytes does. */
  lemma FourByteCorruptionDetected(sent: seq<byte>, received: seq<byte>, k: nat)
    requires |sent| == |received| && sent != received
    requires forall i :: 0 <= i < |sent| && !(k <= i < k + 4) ==> sent[i] == received[i]
    ensures Checksum(sent) != Checksum(received)
  {
    hide ByteBits, Checksum;
    var a, b := BitsOf(sent), BitsOf(received);
    assert a != b by {
      var at :| 0 <= at < |sent| && sent[at] != received[at];
      if ByteBits(sent[at]) == ByteBits(received[at]) {
        ByteBitsInjective(sent[at], received[at]);
      }
      var j :| 0 <= j < 8 && ByteBits(sent[at])[j] != ByteBits(received[at])[j];
      BitsOfAt(sent, at, j);
      BitsOfAt(received, at, j);
    }
    forall i | 0 <= i < |a| && !(8 * k <= i < 8 * k + 32)
      ensures a[i] == b[i]
    {
      BitsOfAt(sent, i / 8, i % 8);
      BitsOfAt(received, i / 8, i % 8);
    }
    BurstErrorDetected(sent, received, 8 * k);
  }

  // ----- The check value -----

  /** One byte more, by way of the registers after each of its bits. */
  lemma OneByte(crc: bv32, b: byte, c0: bv32, c1: bv32, c2: bv32, c3: bv32, c4: bv32, c5: bv32, c6: bv32, c7: bv32,
                c8: bv32, rest: seq<byte>)
    requires c0 == crc ^ (b as bv32) && c1 == BitStep(c0) && c2 == BitStep(c1) && c3 == BitStep(c2)
    requires c4 == BitStep(c3) && c5 == BitStep(c4) && c6 == BitStep(c5) && c7 == BitStep(c6) && c8 == BitStep(c7)
    ensures Update(crc, [b] + rest) == Update(c8, rest)
  {
    hide BitStep;
    assert BitSteps(c4, 4) == c8;
    assert BitSteps(c0, 8) == c8;
    assert ([b] + rest)[1..] == rest;
  }

  lemma NoByte(crc: bv32)
    ensures Update(crc, []) == crc
  {
  }

  /** The checksum of the nine characters "123456789" is the check value published for CRC-32. */
  lemma CheckValue()
    ensures Checksum([0x31, 0x32, 0x33, 0x34, 0x35, 0x36, 0x37, 0x38, 0x39]) == 0xCBF43926
  {
    hide BitSteps, Update;
    var s9: seq<byte> := [];
    var s8 := [0x39] + s9;
    var s7 := [0x38] + s8;
    var s6 := [0x37] + s7;
    var s5 := [0x36] + s6;
    var s4 := [0x35] + s5;
    var s3 := [0x34] + s4;
    var s2 := [0x33] + s3;
    var s1 := [0x32] + s2;
    OneByte(0xFFFFFFFF, 0x31, 0xFFFFFFCE, 0x7FFFFFE7, 0xD2477CD3, 0x849B3D49, 0xAFF51D84,
            0x57FA8EC2, 0x2BFD4761, 0xF8462090, 0x7C231048, s1);
    OneByte(0x7C231048, 0x32, 0x7C23107A, 0x3E11883D, 0xF2B0473E, 0x7958239F, 0xD11492EF,
            0x8532CA57, 0xAF21E60B, 0xBA287025, 0xB0ACBB32, s2);
    OneByte(0xB0ACBB32, 0x33, 0xB0ACBB01, 0xB5EEDEA0, 0x5AF76F50, 0x2D7BB7A8, 0x16BDDBD4,
            0x0B5EEDEA, 0x05AF76F5, 0xEF6F385A, 0x77B79C2D, s3);
    OneByte(0x77B79C2D, 0x34, 0x77B79C19, 0xD6634D2C, 0x6B31A696, 0x3598D34B, 0xF774EA85,
            0x9602F662, 0x4B017B31, 0xC8383EB8, 0x641C1F5C, s4);
    OneByte(0x641C1F5C, 0x35, 0x641C1F69, 0xDFB68C94, 0x6FDB464A, 0x37EDA325, 0xF64E52B2,
            0x7B272959, 0xD02B178C, 0x68158BC6, 0x340AC5E3, s5);
    OneByte(0x340AC5E3, 0x36, 0x340AC5D5, 0xF7BDE1CA, 0x7BDEF0E5, 0xD057FB52, 0x682BFDA9,
            0xD9AD7DF4, 0x6CD6BEFA, 0x366B5F7D, 0xF68D2C9E, s6);
    OneByte(0xF68D2C9E, 0x37, 0xF68D2CA9, 0x96FE1574, 0x4B7F0ABA, 0x25BF855D, 0xFF67418E,
            0x7FB3A0C7, 0xD2615343, 0x84882A81, 0xAFFC9660, s7);
    OneByte(0xAFFC9660, 0x38, 0xAFFC9658, 0x57FE4B2C, 0x2BFF2596, 0x15FF92CB, 0xE7474A45,
            0x9E1B2602, 0x4F0D9301, 0xCA3E4AA0, 0x651F2550, s8);
    OneByte(0x651F2550, 0x39, 0x651F2569, 0xDF371194, 0x6F9B88CA, 0x37CDC465, 0xF65E6112,
            0x7B2F3089, 0xD02F1B64, 0x68178DB2, 0x340BC6D9, s9);
    NoByte(0x340BC6D9);
    assert [0x31] + s1 == [0x31, 0x32, 0x33, 0x34, 0x35, 0x36, 0x37, 0x38, 0x39];
  }
}
