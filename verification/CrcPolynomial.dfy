/** What the checksum means: it is a polynomial remainder over the field of two elements.

    The bits of a message of n bits, in the order they are sent, are the coefficients of a
    polynomial from the power n - 1 down; the register holds a polynomial of degree below 32. */
module CrcPolynomial {
  import opened MachineWord
  import opened Crc32

  /** The coefficient of x to the i of the polynomial a register holds. */
  predicate Coefficient(w: Register, i: int) {
    0 <= i < 32 && w[31 - i]
  }

  /** The same of the polynomial that is divided: the message moved up by 32 places, plus
      the start value of the register moved up by the length of the message. */
  predicate Dividend(w: Register, bits: Bits, i: int) {
    (32 <= i < 32 + |bits| && bits[|bits| - 1 - (i - 32)]) != Coefficient(w, i - |bits|)
  }

  /** The same of the product of q and the generator; q lists coefficients from x to the 0 up. */
  predicate Product(q: Bits, i: int) {
    q != [] && ((q[0] && Generator(i)) != Product(q[1..], i - 1))
  }

  ghost predicate Divides(w: Register, bits: Bits, q: Bits, r: Register) {
    forall i: int :: Dividend(w, bits, i) == (Product(q, i) != Coefficient(r, i))
  }

  ghost predicate IsRemainder(data: seq<byte>, r: Register) {
    exists q :: Divides(Ones(32), BitsOf(data), q, r)
  }

  /** One bit fed is one step of long division. */
  lemma FeedIsDivisionStep(w: Register, b: bool, i: int)
    ensures var t := Coefficient(w, 31) != b;
      Coefficient(Feed(w, b), i) == ((Coefficient(w, i - 1) != (i == 32 && b)) != (t && Generator(i)))
  {
    hide Generator;
    if 0 <= i < 32 {
      assert Feed(w, b)[31 - i] == ((if i > 0 then w[32 - i] else false) != ((w[0] != b) && Generator(i)));
    } else if i != 32 {
      assert !Generator(i) by {
        NoOtherTerms(i);
      }
    } else {
      assert Generator(32) by {
        NoOtherTerms(32);
      }
    }
  }

  lemma NoOtherTerms(i: int)
    ensures Generator(i) ==> 0 <= i <= 32
    ensures Generator(32)
  {
  }

  /** The register after a message is a remainder: here is the quotient. */
  lemma {:induction false} Quotient(w: Register, bits: Bits) returns (q: Bits)
    ensures Divides(w, bits, q, Fold(w, bits))
    decreases |bits|
  {
    hide Generator, Feed;
    if bits == [] {
      q := [];
    } else {
      var n := |bits| - 1;
      var before, b := bits[..n], bits[n];
      var shorter := Quotient(w, before);
      assert bits == before + [b];
      FoldConcat(w, before, [b]);
      var r := Fold(w, before);
      q := [Coefficient(r, 31) != b] + shorter;
      assert q[1..] == shorter;
      forall i: int
        ensures Dividend(w, bits, i) == (Product(q, i) != Coefficient(Fold(w, bits), i))
      {
        assert Dividend(w, bits, i) == (Dividend(w, before, i - 1) != (i == 32 && b));
        FeedIsDivisionStep(r, b, i);
      }
    }
  }

  // ----- There is only one remainder -----

  lemma {:induction false} ProductOfXor(a: Bits, b: Bits, i: int)
    requires |a| == |b|
    ensures Product(Xor(a, b), i) == (Product(a, i) != Product(b, i))
    decreases |a|
  {
    hide Generator;
    if a != [] {
      assert Xor(a, b)[1..] == Xor(a[1..], b[1..]);
      ProductOfXor(a[1..], b[1..], i - 1);
    }
  }

  lemma {:induction false} ProductOfZeros(n: nat, i: int)
    ensures !Product(Zeros(n), i)
  {
    if n > 0 {
      assert Zeros(n)[1..] == Zeros(n - 1);
      ProductOfZeros(n - 1, i - 1);
    }
  }

  lemma {:induction false} ProductOfPadded(q: Bits, n: nat, i: int)
    ensures Product(q + Zeros(n), i) == Product(q, i)
    decreases |q|
  {
    hide Generator;
    if q == [] {
      assert q + Zeros(n) == Zeros(n);
      ProductOfZeros(n, i);
    } else {
      assert (q + Zeros(n))[1..] == q[1..] + Zeros(n);
      ProductOfPadded(q[1..], n, i - 1);
    }
  }

  /** A nonzero multiple of the generator has a term of degree 32 or more. */
  lemma {:induction false} HighTerm(q: Bits) returns (i: int)
    requires q != Zeros(|q|)
    ensures i >= 32 && Product(q, i)
    decreases |q|
  {
    hide Generator;
    if q[1..] == Zeros(|q| - 1) {
      assert q == [q[0]] + q[1..];
      i := 32;
      NoOtherTerms(32);
      ProductOfZeros(|q| - 1, 31);
    } else {
      var j := HighTerm(q[1..]);
      i := j + 1;
      NoOtherTerms(i);
    }
  }

  lemma RemainderUnique(w: Register, bits: Bits, q: Bits, r: Register, q': Bits, r': Register)
    requires Divides(w, bits, q, r) && Divides(w, bits, q', r')
    ensures r == r'
  {
    var a, b := q + Zeros(|q'|), q' + Zeros(|q|);
    var d := Xor(a, b);
    forall i: int
      ensures Product(d, i) == (Coefficient(r, i) != Coefficient(r', i))
    {
      assert Dividend(w, bits, i) == (Product(q, i) != Coefficient(r, i));
      ProductOfXor(a, b, i);
      ProductOfPadded(q, |q'|, i);
      ProductOfPadded(q', |q|, i);
    }
    if d != Zeros(|d|) {
      var i := HighTerm(d);
      assert false;
    }
    forall i | 0 <= i < 32
      ensures r[i] == r'[i]
    {
      ProductOfZeros(|d|, 31 - i);
      assert Product(d, 31 - i) == (Coefficient(r, 31 - i) != Coefficient(r', 31 - i));
    }
  }

  /** The register is the remainder of the message with its first 32 bits inverted ... */
  lemma RegisterIsTheRemainder(data: seq<byte>, state: bv32)
    ensures state == Update(INIT, data) <==> IsRemainder(data, Word(state))
  {
    hide Word, Update, Fold, Divides;
    var bits, r := BitsOf(data), Word(Update(INIT, data));
    WordOfOnes();
    UpdateIsFold(INIT, data);
    var q := Quotient(Ones(32), bits);
    assert Divides(Ones(32), bits, q, r);
    if IsRemainder(data, Word(state)) {
      var q' :| Divides(Ones(32), bits, q', Word(state));
      RemainderUnique(Ones(32), bits, q, r, q', Word(state));
      WordInjective(Update(INIT, data), state);
    }
  }

  /** ... and the checksum of section 8 of RFC 1952 is its complement. */
  lemma ChecksumIsTheRemainder(data: seq<byte>, crc: bv32, complement: bv32)
    requires complement == !crc
    ensures crc == Checksum(data) <==> IsRemainder(data, Word(complement))
  {
    hide Word, Checksum, Update, IsRemainder;
    RegisterIsTheRemainder(data, complement);
    ChecksumIs(data, crc, complement);
  }

  lemma ChecksumIs(data: seq<byte>, crc: bv32, complement: bv32)
    requires complement == !crc
    ensures crc == Checksum(data) <==> complement == Update(INIT, data)
  {
    hide Update;
    Complement(Update(INIT, data), crc, complement);
  }

  lemma Complement(state: bv32, crc: bv32, complement: bv32)
    requires complement == !crc
    ensures crc == !state <==> complement == state
  {
    if complement == state {
      assert !!crc == crc;
    }
    if crc == !state {
      assert !!state == state;
    }
  }
}
