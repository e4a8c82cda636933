/** Integers of any width at any bit offset of a string: bit 0 is the most significant bit of the
    first byte. Machine words have w bits. */
module Bitfield {
  import opened Words
  import opened Bits

  type Byte = x: nat | x < 256

  // ---------------------------------------------------------------- bit strings and fields

  /** The bit at a position; the string is zero padded on the right. */
  function StrBit(s: seq<Byte>, o: nat): nat { if o / 8 < |s| then Bit(s[o / 8], 7 - o % 8) else 0 }

  /** The number that n bits from a position on stand for, the first one highest. */
  function Field(s: seq<Byte>, offset: nat, n: nat): nat {
    if n == 0 then 0 else 2 * Field(s, offset, n - 1) + StrBit(s, offset + n - 1)
  }

  lemma StrBitIsBit(s: seq<Byte>, o: nat)
    ensures StrBit(s, o) <= 1
  {}

  lemma {:induction false} FieldBelow(s: seq<Byte>, offset: nat, n: nat)
    ensures Field(s, offset, n) < Pow2(n)
  {
    if n > 0 {
      FieldBelow(s, offset, n - 1);
      StrBitIsBit(s, offset + n - 1);
    }
  }

  /** Fields with the same bits are equal. */
  lemma {:induction false} FieldSame(s: seq<Byte>, a: nat, t: seq<Byte>, b: nat, n: nat)
    requires forall o :: a <= o < a + n ==> StrBit(s, o) == StrBit(t, o - a + b)
    ensures Field(s, a, n) == Field(t, b, n)
  {
    if n > 0 {
      FieldSame(s, a, t, b, n - 1);
      assert StrBit(s, a + n - 1) == StrBit(t, b + n - 1);
    }
  }

  /** A field whose bits are the low n digits of a value, highest first, is that value mod 2^n. */
  lemma {:induction false} FieldOfDigits(s: seq<Byte>, offset: nat, n: nat, value: nat)
    requires forall o :: offset <= o < offset + n ==> StrBit(s, o) == Bit(value, offset + n - 1 - o)
    ensures Field(s, offset, n) == Lo(value, n)
  {
    if n > 0 {
      forall o | offset <= o < offset + (n - 1) ensures StrBit(s, o) == Bit(value / 2, offset + (n - 1) - 1 - o) {
        DigitUp(value, offset + (n - 1) - 1 - o);
      }
      FieldOfDigits(s, offset, n - 1, value / 2);
      assert StrBit(s, offset + n - 1) == Bit(value, 0);
    }
  }

  lemma DigitUp(value: nat, i: nat)
    ensures Bit(value, i + 1) == Bit(value / 2, i)
  {}

  // ---------------------------------------------------------------- one bit of a byte

  lemma ByteRange()
    ensures Pow2(8) == 256
  {
    assert Up(1, 4) == 16 && Up(1, 8) == 256;
  }

  lemma OneBelow(bit: nat, w: nat)
    requires bit < w
    ensures Up(1, bit) < Pow2(w)
  {
    UpUp(1, w - bit - 1, bit + 1);
    UpMono(1, Pow2(w - bit - 1), bit + 1);
    UpMono(0, 1, bit);
  }

  /** `((byteval & ~(1 << bit)) | (bitval << bit)) & 0xff`. */
  function PutBit(b: Byte, bit: nat, bitval: nat): Byte
    requires bit < 8 && bitval <= 1
  {
    OneBelow(bit, 8);
    ByteRange();
    LoHi(Or(And(b, Not(Up(1, bit), 8)), Up(bitval, bit)), 8);
    Lo(Or(And(b, Not(Up(1, bit), 8)), Up(bitval, bit)), 8)
  }

  /** It changes one bit. */
  lemma PutBitBits(b: Byte, bit: nat, bitval: nat, i: nat)
    requires bit < 8 && bitval <= 1 && i < 8
    ensures Bit(PutBit(b, bit, bitval), i) == if i == bit then bitval else Bit(b, i)
  {
    OneBelow(bit, 8);
    var kept, put := And(b, Not(Up(1, bit), 8)), Up(bitval, bit);
    BitLo(Or(kept, put), 8, i);
    BitOr(kept, put, i);
    BitAnd(b, Not(Up(1, bit), 8), i);
    BitNot(Up(1, bit), 8, i);
    BitPower(bit, i);
    if bitval == 0 {
      UpZero(bit);
      BitZero(i);
    }
  }

  lemma PutStrBit(s: seq<Byte>, o: nat, bitval: nat, p: nat)
    requires o / 8 < |s| && bitval <= 1
    ensures StrBit(s[o / 8 := PutBit(s[o / 8], 7 - o % 8, bitval)], p) == if p == o then bitval else StrBit(s, p)
  {
    if p / 8 == o / 8 {
      PutBitBits(s[o / 8], 7 - o % 8, bitval, 7 - p % 8);
      assert p == o <==> p % 8 == o % 8;
    }
  }

  // ---------------------------------------------------------------- reading and writing a field

  /** `(value & (1 << k)) != 0`. */
  lemma TestBit(value: nat, k: nat)
    ensures And(value, Up(1, k)) != 0 <==> Bit(value, k) == 1
  {
    AndUp(value, 1, k);
    UpZero(k);
    AndUnfold(Hi(value, k), 1);
    UpMono(0, And(Hi(value, k), 1), k);
  }

  /** The first n of the field's bits are the digits of the value, highest first; all other bits
      are as before. */
  ghost predicate Written(before: seq<Byte>, after: seq<Byte>, offset: nat, bits: nat, value: nat, n: nat)
    requires n <= bits
  {
    && |after| == |before|
    && forall o: nat :: StrBit(after, o) == if offset <= o < offset + n then Bit(value, offset + bits - 1 - o)
                                            else StrBit(before, o)
  }

  lemma WrittenMore(before: seq<Byte>, s: seq<Byte>, offset: nat, bits: nat, value: nat, n: nat, bitval: nat)
    requires n < bits && Written(before, s, offset, bits, value, n) && offset + bits <= 8 * |s|
    requires bitval == Bit(value, bits - 1 - n)
    ensures var o := offset + n;
      Written(before, s[o / 8 := PutBit(s[o / 8], 7 - o % 8, bitval)], offset, bits, value, n + 1)
  {
    var at := offset + n;
    var after := s[at / 8 := PutBit(s[at / 8], 7 - at % 8, bitval)];
    forall o: nat
      ensures StrBit(after, o) == if offset <= o < offset + (n + 1) then Bit(value, offset + bits - 1 - o) else StrBit(before, o)
    {
      PutStrBit(s, at, bitval, o);
      assert StrBit(s, o) == if offset <= o < offset + n then Bit(value, offset + bits - 1 - o) else StrBit(before, o);
    }
  }

  method SetUnsignedBitfield(p: array<Byte>, offset: nat, bits: nat, value: nat)
    requires bits <= 64 && offset + bits <= 8 * p.Length
    modifies p
    ensures Written(old(p[..]), p[..], offset, bits, value, bits)
  {
    var at, j := offset, 0;
    while j < bits
      invariant 0 <= j <= bits && at == offset + j && Written(old(p[..]), p[..], offset, bits, value, j)
    {
      var bitval := if And(value, Up(1, bits - 1 - j)) != 0 then 1 else 0;
      TestBit(value, bits - 1 - j);
      WrittenMore(old(p[..]), p[..], offset, bits, value, j, bitval);
      var byte, bit := at / 8, 7 - at % 8;
      ghost var was := p[..];
      p[byte] := PutBit(p[byte], bit, bitval);
      assert p[..] == was[byte := PutBit(was[byte], bit, bitval)];
      at, j := at + 1, j + 1;
    }
  }

  method GetUnsignedBitfield(p: array<Byte>, offset: nat, bits: nat) returns (value: nat)
    requires bits <= 64 && offset + bits <= 8 * p.Length
    ensures value == Field(p[..], offset, bits)
  {
    value := 0;
    var at, j := offset, 0;
    while j < bits
      invariant 0 <= j <= bits && at == offset + j && value == Field(p[..], offset, j)
    {
      var byte, bit := at / 8, 7 - at % 8;
      var bitval := And(Hi(p[byte], bit), 1);
      LowBit(Hi(p[byte], bit));
      OrDouble(value, bitval);
      value := Or(Up(value, 1), bitval);
      at, j := at + 1, j + 1;
    }
  }

  lemma LowBit(x: nat)
    ensures And(x, 1) == x % 2
  {
    AndUnfold(x, 1);
  }

  lemma OrDouble(value: nat, b: nat)
    requires b <= 1
    ensures Or(Up(value, 1), b) == 2 * value + b
  {
    assert Up(value, 1) == 2 * value;
    OrUnfold(2 * value, b);
    assert Or(value, 0) == value;
  }

  /** What was written is read back modulo 2^bits. */
  lemma GetAfterSet(before: seq<Byte>, after: seq<Byte>, offset: nat, bits: nat, value: nat)
    requires Written(before, after, offset, bits, value, bits)
    ensures Field(after, offset, bits) == Lo(value, bits)
    ensures forall o: nat :: o < offset || offset + bits <= o ==> StrBit(after, o) == StrBit(before, o)
  {
    FieldOfDigits(after, offset, bits, value);
  }
}
