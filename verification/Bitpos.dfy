/** Finding the first set or clear bit of a string by words of `size` bytes. */
module Bitpos {
  import opened Words
  import opened Bits
  import opened Bitfield

  /** The byte that holds no bit of the kind looked for. */
  function Skip(bit: nat): Byte { if bit == 1 then 0 else 255 }

  ghost predicate NoneBefore(s: seq<Byte>, bit: nat, n: nat) { forall o :: 0 <= o < n ==> StrBit(s, o) != bit }

  ghost predicate SomeIn(s: seq<Byte>, bit: nat, from: nat, to: nat) { exists o :: from <= o < to && StrBit(s, o) == bit }

  lemma SkipBits(bit: nat, k: nat)
    requires bit <= 1 && k < 8
    ensures Bit(Skip(bit), k) == 1 - bit
  {
    BitZero(k);
    ByteRange();
    BitNot(0, 8, k);
  }

  /** Any other byte holds one. */
  lemma OtherBits(b: Byte, bit: nat) returns (k: nat)
    requires bit <= 1 && b != Skip(bit)
    ensures k < 8 && Bit(b, k) == bit
  {
    ByteRange();
    if forall i :: 0 <= i < 8 ==> Bit(b, i) != bit {
      forall i | 0 <= i < 8 ensures Bit(b, i) == Bit(Skip(bit), i) {
        SkipBits(bit, i);
      }
      BitsDecide(b, Skip(bit), 8);
    }
    k :| 0 <= k < 8 && Bit(b, k) == bit;
  }

  lemma SkipByte(s: seq<Byte>, bit: nat, i: nat)
    requires bit <= 1 && i < |s| && s[i] == Skip(bit) && NoneBefore(s, bit, 8 * i)
    ensures NoneBefore(s, bit, 8 * (i + 1))
  {
    forall o | 0 <= o < 8 * (i + 1) ensures StrBit(s, o) != bit {
      if o >= 8 * i {
        assert o / 8 == i;
        SkipBits(bit, 7 - o % 8);
      }
    }
  }

  lemma FoundByte(s: seq<Byte>, bit: nat, i: nat, j: nat, n: nat)
    requires bit <= 1 && i <= j < |s| && s[j] != Skip(bit) && j < i + n
    ensures SomeIn(s, bit, 8 * i, 8 * (i + n))
  {
    var k := OtherBits(s[j], bit);
    var o := 8 * j + 7 - k;
    assert o / 8 == j && o % 8 == 7 - k;
    assert StrBit(s, o) == bit;
  }

  // ---------------------------------------------------------------- whole words

  /** A word loaded from n bytes; its byte order does not matter for all zeros and all ones. */
  function Load(s: seq<Byte>, i: nat, n: nat): nat
    requires i + n <= |s|
  {
    if n == 0 then 0 else 256 * Load(s, i, n - 1) + s[i + n - 1]
  }

  /** 0 or ULONG_MAX. */
  function SkipWord(bit: nat, n: nat): nat { if n == 0 then 0 else 256 * SkipWord(bit, n - 1) + Skip(bit) }

  lemma {:induction false} LoadBelow(s: seq<Byte>, i: nat, n: nat, bit: nat)
    requires i + n <= |s|
    ensures bit == 1 ==> SkipWord(bit, n) == 0
    ensures bit != 1 ==> Load(s, i, n) <= SkipWord(bit, n)
  {
    if n > 0 {
      LoadBelow(s, i, n - 1, bit);
    }
  }

  lemma {:induction false} SkippedWord(s: seq<Byte>, bit: nat, i: nat, n: nat)
    requires bit <= 1 && i + n <= |s| && Load(s, i, n) == SkipWord(bit, n) && NoneBefore(s, bit, 8 * i)
    ensures NoneBefore(s, bit, 8 * (i + n))
  {
    if n > 0 {
      LoadBelow(s, i, n - 1, bit);
      SkippedWord(s, bit, i, n - 1);
      SkipByte(s, bit, i + n - 1);
    }
  }

  lemma {:induction false} FoundWord(s: seq<Byte>, bit: nat, i: nat, n: nat) returns (j: nat)
    requires bit <= 1 && i + n <= |s| && Load(s, i, n) != SkipWord(bit, n)
    ensures i <= j < i + n && s[j] != Skip(bit)
  {
    if s[i + n - 1] != Skip(bit) {
      return i + n - 1;
    }
    j := FoundWord(s, bit, i, n - 1);
  }

  // ---------------------------------------------------------------- the last word, bit by bit

  lemma {:induction false} FieldSum(s: seq<Byte>, offset: nat, a: nat, b: nat)
    ensures Field(s, offset, a + b) == Up(Field(s, offset, a), b) + Field(s, offset + a, b)
  {
    if b > 0 {
      FieldSum(s, offset, a, b - 1);
    }
  }

  /** Eight bits make a byte, past the end of the string zero. */
  lemma FieldOfByte(s: seq<Byte>, i: nat)
    ensures Field(s, 8 * i, 8) == if i < |s| then s[i] else 0
  {
    var b: Byte := if i < |s| then s[i] else 0;
    forall o | 8 * i <= o < 8 * i + 8 ensures StrBit(s, o) == Bit(b, 8 * i + 8 - 1 - o) {
      assert o / 8 == i && 7 - o % 8 == 8 * i + 7 - o;
      if i >= |s| {
        BitZero(8 * i + 7 - o);
      }
    }
    FieldOfDigits(s, 8 * i, 8, b);
    ByteRange();
    LoSmall(b, 8);
  }

  lemma {:induction false} FieldDigit(s: seq<Byte>, offset: nat, n: nat, q: nat)
    requires q < n
    ensures Bit(Field(s, offset, n), n - 1 - q) == StrBit(s, offset + q)
  {
    StrBitIsBit(s, offset + n - 1);
    HalfOfSum(StrBit(s, offset + n - 1), Field(s, offset, n - 1));
    if q < n - 1 {
      FieldDigit(s, offset, n - 1, q);
    }
  }

  lemma {:induction false} FieldZero(s: seq<Byte>, offset: nat, n: nat)
    requires Field(s, offset, n) == 0
    ensures forall o :: offset <= o < offset + n ==> StrBit(s, o) == 0
  {
    if n > 0 {
      FieldZero(s, offset, n - 1);
    }
  }

  /** `word << 8 | byte`. */
  lemma ShiftByte(word: nat, b: Byte)
    ensures Or(Up(word, 8), b) == Up(word, 8) + b
  {
    ByteRange();
    OrDisjoint(b, word, 8);
    OrComm(Up(word, 8), b);
  }

  lemma LoadRound(s: seq<Byte>, i: nat, j: nat)
    ensures Field(s, 8 * i, 8 * (j + 1)) == Up(Field(s, 8 * i, 8 * j), 8) + if i + j < |s| then s[i + j] else 0
  {
    FieldSum(s, 8 * i, 8 * j, 8);
    FieldOfByte(s, i + j);
  }

  /** Up to `size` bytes as a big endian word, zero padded on the right. */
  method LoadPadded(s: seq<Byte>, i: nat, size: nat) returns (word: nat)
    ensures word == Field(s, 8 * i, 8 * size)
  {
    word := 0;
    var j := 0;
    while j < size
      invariant 0 <= j <= size && word == Field(s, 8 * i, 8 * j)
    {
      LoadRound(s, i, j);
      word := Up(word, 8);
      if i + j < |s| {
        ShiftByte(Field(s, 8 * i, 8 * j), s[i + j]);
        word := Or(word, s[i + j]);
      }
      j := j + 1;
    }
  }

  lemma TopOne(w: nat)
    requires w >= 1
    ensures Hi(Pow2(w) - 1, 1) < Pow2(w) && Not(Hi(Pow2(w) - 1, 1), w) == Up(1, w - 1)
  {
    assert Hi(Pow2(w) - 1, 1) == Hi((Pow2(w) - 1) / 2, 0);
    OnesSplit(w);
  }

  lemma NextOne(k: nat)
    ensures Hi(Up(1, k), 1) == if k == 0 then 0 else Up(1, k - 1)
  {
    assert Hi(Up(1, k), 1) == Hi(Up(1, k) / 2, 0);
  }

  /** Bit by bit from the most significant one; a match is known to exist. */
  method ScanWord(s: seq<Byte>, from: nat, word: nat, w: nat, bit: nat) returns (pos: nat)
    requires bit <= 1 && w >= 1 && word == Field(s, from, w) && SomeIn(s, bit, from, from + w)
    ensures from <= pos && StrBit(s, pos) == bit && forall o :: from <= o < pos ==> StrBit(s, o) != bit
  {
    TopOne(w);
    var one := Not(Hi(Pow2(w) - 1, 1), w);
    pos := from;
    while one != 0
      invariant from <= pos <= from + w && one == (if pos < from + w then Up(1, from + w - 1 - pos) else 0)
      invariant forall o :: from <= o < pos ==> StrBit(s, o) != bit
      decreases from + w - pos
    {
      FieldDigit(s, from, w, pos - from);
      TestBit(word, from + w - 1 - pos);
      StrBitIsBit(s, pos);
      if (And(word, one) != 0) == (bit == 1) {
        return;
      }
      NextOne(from + w - 1 - pos);
      pos := pos + 1;
      one := Hi(one, 1);
    }
    if pos < from + w {
      UpPositive(from + w - 1 - pos);
    }
    assert false;
  }

  /** redisBitpos: unaligned bytes, whole words, then the last word; -1 if no bit is set. */
  method RedisBitpos(s: seq<Byte>, address: nat, size: nat, bit: nat) returns (pos: int)
    requires bit <= 1 && size >= 1
    ensures pos >= 0 ==> StrBit(s, pos) == bit && NoneBefore(s, bit, pos)
    ensures pos < 0 ==> pos == -1 && bit == 1 && forall o: nat :: StrBit(s, o) == 0
  {
    var i, found := 0, false;
    while (address + i) % size != 0 && i < |s|
      invariant 0 <= i <= |s| && NoneBefore(s, bit, 8 * i)
      invariant !found
      decreases |s| - i
    {
      if s[i] != Skip(bit) {
        found := true;
        break;
      }
      SkipByte(s, bit, i);
      i := i + 1;
    }
    if !found {
      i := SkipWords(s, i, size, bit);
    }
    var word := LoadPadded(s, i, size);
    LastWord(s, bit, i, size);
    if bit == 1 && word == 0 {
      return -1;
    }
    pos := ScanWord(s, 8 * i, word, 8 * size, bit);
  }

  method SkipWords(s: seq<Byte>, start: nat, size: nat, bit: nat) returns (i: nat)
    requires bit <= 1 && size >= 1 && start <= |s| && NoneBefore(s, bit, 8 * start)
    ensures i <= |s| && NoneBefore(s, bit, 8 * i)
    ensures i + size <= |s| ==> exists j :: i <= j < i + size && s[j] != Skip(bit)
  {
    i := start;
    while |s| - i >= size
      invariant start <= i <= |s| && NoneBefore(s, bit, 8 * i)
    {
      if Load(s, i, size) != SkipWord(bit, size) {
        var j := FoundWord(s, bit, i, size);
        return;
      }
      SkippedWord(s, bit, i, size);
      i := i + size;
    }
  }

  /** The word from byte i on holds a match, unless it is all zero and ends the string. */
  lemma LastWord(s: seq<Byte>, bit: nat, i: nat, size: nat)
    requires bit <= 1 && size >= 1 && i <= |s| && NoneBefore(s, bit, 8 * i)
    requires i + size <= |s| ==> exists j :: i <= j < i + size && s[j] != Skip(bit)
    ensures bit == 1 && Field(s, 8 * i, 8 * size) == 0 ==> forall o: nat :: StrBit(s, o) == 0
    ensures bit == 0 || Field(s, 8 * i, 8 * size) != 0 ==> SomeIn(s, bit, 8 * i, 8 * i + 8 * size)
  {
    if i + size <= |s| {
      var j :| i <= j < i + size && s[j] != Skip(bit);
      FoundByte(s, bit, i, j, size);
    } else if bit == 0 {
      assert StrBit(s, 8 * |s|) == 0;
    } else if Field(s, 8 * i, 8 * size) != 0 {
      var o := FieldNonZero(s, 8 * i, 8 * size);
    }
    if bit == 1 && Field(s, 8 * i, 8 * size) == 0 {
      FieldZero(s, 8 * i, 8 * size);
      forall o: nat ensures StrBit(s, o) == 0 {
        StrBitIsBit(s, o);
      }
    }
  }

  lemma {:induction false} FieldNonZero(s: seq<Byte>, offset: nat, n: nat) returns (o: nat)
    requires Field(s, offset, n) != 0
    ensures offset <= o < offset + n && StrBit(s, o) == 1
  {
    if StrBit(s, offset + n - 1) != 0 {
      StrBitIsBit(s, offset + n - 1);
      return offset + n - 1;
    }
    o := FieldNonZero(s, offset, n - 1);
  }
}
