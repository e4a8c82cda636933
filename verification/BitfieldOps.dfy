/** Signed fields, the overflow checks and what BITFIELD SET and INCRBY write. Words have w bits;
    signed words are numbers in two's complement. */
module BitfieldOps {
  import opened Words
  import opened Bits
  import opened Bitfield

  // ---------------------------------------------------------------- numbers modulo a power of two

  /** x modulo 2^n, for negative numbers too. */
  function Mod(x: int, n: nat): nat
    decreases n
  {
    if n == 0 then 0 else x % 2 + 2 * Mod(x / 2, n - 1)
  }

  function Div(x: int, n: nat): int
    decreases n
  {
    if n == 0 then x else Div(x / 2, n - 1)
  }

  function Times(q: int, n: nat): int { if n == 0 then q else 2 * Times(q, n - 1) }

  lemma {:induction false} ModDiv(x: int, n: nat)
    ensures Mod(x, n) < Pow2(n) && x == Mod(x, n) + Times(Div(x, n), n)
    decreases n
  {
    if n > 0 {
      ModDiv(x / 2, n - 1);
    }
  }

  lemma {:induction false} TimesIsProduct(q: int, n: nat)
    ensures Times(q, n) == q * Pow2(n)
  {
    if n > 0 {
      TimesIsProduct(q, n - 1);
      var p := Pow2(n - 1);
      assert q * (2 * p) == 2 * (q * p);
    }
  }

  /** It is the remainder. */
  lemma ModIsRemainder(x: int, n: nat)
    ensures Mod(x, n) == x % Pow2(n)
  {
    ModDiv(x, n);
    TimesIsProduct(Div(x, n), n);
    RemainderIs(x, Pow2(n), Div(x, n), Mod(x, n));
  }

  lemma RemainderIs(x: int, p: nat, q: int, r: nat)
    requires r < p && x == r + q * p
    ensures r == x % p
  {
    assert q * p == p * q;
    DivModUnique(x, p, q, r);
  }

  lemma {:induction false} ModOfNat(x: nat, n: nat)
    ensures Mod(x, n) == Lo(x, n)
  {
    if n > 0 {
      ModOfNat(x / 2, n - 1);
    }
  }

  /** Cutting to more digits first makes no difference. */
  lemma {:induction false} ModMod(x: int, n: nat, m: nat)
    requires n <= m
    ensures Lo(Mod(x, m), n) == Mod(x, n)
    decreases n
  {
    if n > 0 {
      ModMod(x / 2, n - 1, m - 1);
      HalfOfSum(x % 2, Mod(x / 2, m - 1));
    }
  }

  lemma {:induction false} TimesOrder(p: int, q: int, n: nat)
    ensures p < q ==> Times(p, n) + Pow2(n) <= Times(q, n)
  {
    if n > 0 {
      TimesOrder(p, q, n - 1);
    }
  }

  lemma ModUnique(x: int, n: nat, q: int, r: int)
    requires 0 <= r < Pow2(n) && x == r + Times(q, n)
    ensures Mod(x, n) == r
  {
    ModDiv(x, n);
    TimesOrder(Div(x, n), q, n);
    TimesOrder(q, Div(x, n), n);
  }

  lemma {:induction false} TimesSum(p: int, q: int, n: nat)
    ensures Times(p + q, n) == Times(p, n) + Times(q, n)
  {
    if n > 0 {
      TimesSum(p, q, n - 1);
    }
  }

  /** Sums may be cut before or after adding. */
  lemma ModSum(x: int, y: int, n: nat)
    ensures Mod(Mod(x, n) + Mod(y, n), n) == Mod(x + y, n)
  {
    var sum := Mod(x, n) + Mod(y, n);
    ModDiv(x, n);
    ModDiv(y, n);
    ModDiv(sum, n);
    TimesSum(Div(x, n), Div(y, n), n);
    TimesSum(Div(x, n) + Div(y, n), Div(sum, n), n);
    ModUnique(x + y, n, Div(x, n) + Div(y, n) + Div(sum, n), Mod(sum, n));
  }

  lemma {:induction false} ModInside(x: nat, n: nat)
    requires x < Pow2(n)
    ensures Mod(x, n) == x
  {
    ModOfNat(x, n);
    LoSmall(x, n);
  }

  // ---------------------------------------------------------------- two's complement

  /** The number an n-bit word stands for as a signed one. */
  function Signed(u: nat, n: nat): int
    requires n >= 1
  {
    if u < Pow2(n - 1) then u else u - Pow2(n)
  }

  lemma Doubling(n: nat)
    requires n >= 1
    ensures Pow2(n) == 2 * Pow2(n - 1)
  {}

  lemma TimesOne(n: nat)
    ensures Times(1, n) == Pow2(n) && Times(-1, n) == 0 - Pow2(n) && Times(0, n) == 0
  {
    TimesIsProduct(1, n);
    TimesIsProduct(-1, n);
    TimesIsProduct(0, n);
  }

  /** Numbers in the range of n-bit signed integers survive being stored. */
  lemma SignedRoundTrip(x: int, n: nat)
    requires n >= 1 && 0 - Pow2(n - 1) <= x < Pow2(n - 1)
    ensures Signed(Mod(x, n), n) == x
  {
    Doubling(n);
    TimesOne(n);
    if x >= 0 {
      ModUnique(x, n, 0, x);
    } else {
      ModUnique(x, n, -1, x + Pow2(n));
    }
  }

  /** What a signed reading gives is congruent to what was stored, and in range. */
  lemma SignedCongruent(x: int, n: nat)
    requires n >= 1
    ensures 0 - Pow2(n - 1) <= Signed(Mod(x, n), n) < Pow2(n - 1)
    ensures Mod(Signed(Mod(x, n), n), n) == Mod(x, n)
  {
    var r := Mod(x, n);
    ModDiv(x, n);
    Doubling(n);
    TimesOne(n);
    if r < Pow2(n - 1) {
      ModUnique(r, n, 0, r);
    } else {
      ModUnique(r - Pow2(n), n, -1, r);
    }
  }

  /** `((uint64_t)-1) << bits`. */
  function HighMask(bits: nat, w: nat): nat { Lo(Up(Pow2(w) - 1, bits), w) }

  lemma PowerSum(a: nat, b: nat)
    ensures Up(Pow2(a), b) == Pow2(a + b)
  {
    UpUp(1, a, b);
  }

  lemma {:induction false} UpMinus(x: nat, y: nat, k: nat)
    requires y <= x
    ensures Up(x - y, k) == Up(x, k) - Up(y, k)
  {
    UpAdd(x - y, y, k);
  }

  lemma HighMaskIs(bits: nat, j: nat)
    ensures HighMask(bits, bits + j) == Up(Pow2(j) - 1, bits) == Pow2(bits + j) - Pow2(bits)
  {
    var w := bits + j;
    var lo, hi := Up(Pow2(j) - 1, bits), Pow2(bits) - 1;
    PowerSum(j, bits);
    UpMinus(Pow2(j), 1, bits);
    UpMinus(Pow2(bits), 1, w);
    UpMinus(Pow2(w), 1, bits);
    PowerSum(bits, w);
    PowerSum(w, bits);
    LoHiUnique(Up(Pow2(w) - 1, bits), w, lo, hi);
  }

  /** getSignedBitfield: the top bit of the field is spread over the word. */
  function SignExtend(u: nat, bits: nat, w: nat): int
    requires 1 <= bits < w
  {
    Signed(if And(u, Up(1, bits - 1)) != 0 then Or(u, HighMask(bits, w)) else u, w)
  }

  lemma TopBit(u: nat, bits: nat)
    requires bits >= 1 && u < Pow2(bits)
    ensures Bit(u, bits - 1) == 1 <==> u >= Pow2(bits - 1)
  {
    LoHi(u, bits - 1);
    Doubling(bits);
    HiBelow(u, bits - 1, 1);
    assert Pow2(1) == 2;
    UpZero(bits - 1);
  }

  lemma SignExtendIs(u: nat, bits: nat, j: nat)
    requires bits >= 1 && j >= 1 && u < Pow2(bits)
    ensures SignExtend(u, bits, bits + j) == Signed(u, bits)
  {
    var w := bits + j;
    TestBit(u, bits - 1);
    TopBit(u, bits);
    HighMaskIs(bits, j);
    OrDisjoint(u, Pow2(j) - 1, bits);
    PowMono(bits, w - 1);
    Doubling(w);
    Doubling(bits);
  }

  // ---------------------------------------------------------------- overflow

  datatype Overflow = Wrap | Sat | Fail

  /** The result of a check: whether the value would leave the range, upwards or downwards, and
      what to store instead unless it fails. */
  datatype Check = Check(overflow: int, limit: int)

  /** `res &= ~mask` on a word. */
  lemma ClearHigh(c: nat, bits: nat, j: nat)
    requires c < Pow2(bits + j)
    ensures HighMask(bits, bits + j) < Pow2(bits + j)
    ensures And(c, Not(HighMask(bits, bits + j), bits + j)) == Lo(c, bits)
  {
    HighMaskIs(bits, j);
    assert Not(HighMask(bits, bits + j), bits + j) == Pow2(bits) - 1;
    AndMask(c, bits);
  }

  /** checkUnsignedBitfieldOverflow: value is a word, incr a signed one. */
  function CheckUnsigned(value: nat, incr: int, bits: nat, ow: Overflow, w: nat): Check
    requires 1 <= bits < w
  {
    HighMaskIs(bits, w - bits);
    ModDiv(value + incr, w);
    var max := Up(1, bits) - 1;
    var wrapped := And(Mod(value + incr, w), Not(HighMask(bits, w), w));
    if value > max || (incr > 0 && incr > max - value) then
      Check(1, if ow == Wrap then wrapped else if ow == Sat then max else 0)
    else if incr < 0 && incr < 0 - value then
      if ow == Wrap then Check(1, wrapped) else Check(-1, 0)
    else Check(0, 0)
  }

  function Clamped(x: int, lo: int, hi: int): int { if x < lo then lo else if x > hi then hi else x }

  lemma CheckUnsignedCases(value: nat, incr: int, bits: nat, ow: Overflow, j: nat)
    requires bits >= 1 && j >= 1 && (value < Pow2(bits) || incr == 0)
    ensures var c := CheckUnsigned(value, incr, bits, ow, bits + j);
      && (c.overflow != 0 <==> !(0 <= value + incr < Pow2(bits)))
      && (c.overflow != 0 && ow == Wrap ==> c.limit == Mod(value + incr, bits))
      && (c.overflow != 0 && ow == Sat ==> c.limit == Clamped(value + incr, 0, Pow2(bits) - 1))
  {
    var x := value + incr;
    ModDiv(x, bits + j);
    ClearHigh(Mod(x, bits + j), bits, j);
    ModMod(x, bits, bits + j);
  }

  /** checkSignedBitfieldOverflow. */
  function CheckSigned(value: int, incr: int, bits: nat, ow: Overflow, w: nat): Check
    requires 1 <= bits < w
  {
    var max := Up(1, bits - 1) - 1;
    var min := 0 - max - 1;
    if value > max || incr > max - value then
      Check(1, if ow == Wrap then SignedWrap(value, incr, bits, w) else if ow == Sat then max else 0)
    else if value < min || incr < min - value then
      if ow == Wrap then Check(1, SignedWrap(value, incr, bits, w)) else Check(-1, if ow == Sat then min else 0)
    else Check(0, 0)
  }

  /** The sum as words, then its bit bits-1 spread over the higher ones. */
  function SignedWrap(value: int, incr: int, bits: nat, w: nat): int
    requires 1 <= bits < w
  {
    SpreadWord(Mod(Mod(value, w) + Mod(incr, w), w), bits, w)
  }

  function SpreadWord(c: nat, bits: nat, w: nat): int
    requires 1 <= bits < w
  {
    HighMaskIs(bits, w - bits);
    Signed(if And(c, Up(1, bits - 1)) != 0 then Or(c, HighMask(bits, w)) else And(c, Not(HighMask(bits, w), w)), w)
  }

  /** Setting the high digits of a word. */
  lemma SetHigh(c: nat, bits: nat, j: nat)
    requires c < Pow2(bits + j)
    ensures Or(c, HighMask(bits, bits + j)) == Lo(c, bits) + HighMask(bits, bits + j)
  {
    HighMaskIs(bits, j);
    OrUp(c, Pow2(j) - 1, bits);
    HiBelow(c, bits, j);
    OrOnes(Hi(c, bits), j);
  }

  lemma SignedOfLow(r: nat, bits: nat, j: nat)
    requires bits >= 1 && j >= 1 && r < Pow2(bits)
    ensures HighMask(bits, bits + j) == Pow2(bits + j) - Pow2(bits)
    ensures r < Pow2(bits - 1) ==> Signed(r, bits + j) == r
    ensures r >= Pow2(bits - 1) ==> Signed(r + HighMask(bits, bits + j), bits + j) == r - Pow2(bits)
  {
    HighMaskIs(bits, j);
    PowMono(bits, bits + j - 1);
    Doubling(bits + j);
    Doubling(bits);
  }

  lemma SpreadSign(c: nat, bits: nat, j: nat)
    requires bits >= 1 && j >= 1 && c < Pow2(bits + j)
    ensures SpreadWord(c, bits, bits + j) == Signed(Lo(c, bits), bits)
  {
    LoHi(c, bits);
    ClearHigh(c, bits, j);
    SetHigh(c, bits, j);
    TestBit(c, bits - 1);
    BitLo(c, bits, bits - 1);
    TopBit(Lo(c, bits), bits);
    SignedOfLow(Lo(c, bits), bits, j);
  }

  lemma SignedWrapIs(value: int, incr: int, bits: nat, j: nat)
    requires bits >= 1 && j >= 1
    ensures SignedWrap(value, incr, bits, bits + j) == Signed(Mod(value + incr, bits), bits)
  {
    var w := bits + j;
    ModSum(value, incr, w);
    ModDiv(value + incr, w);
    ModMod(value + incr, bits, w);
    SpreadSign(Mod(value + incr, w), bits, j);
  }

  lemma CheckSignedCases(value: int, incr: int, bits: nat, ow: Overflow, j: nat)
    requires bits >= 1 && j >= 1 && (0 - Pow2(bits - 1) <= value < Pow2(bits - 1) || incr == 0)
    ensures var c := CheckSigned(value, incr, bits, ow, bits + j);
      && (c.overflow != 0 <==> !(0 - Pow2(bits - 1) <= value + incr < Pow2(bits - 1)))
      && (c.overflow != 0 && ow == Wrap ==> c.limit == Signed(Mod(value + incr, bits), bits))
      && (c.overflow != 0 && ow == Sat ==> c.limit == Clamped(value + incr, 0 - Pow2(bits - 1), Pow2(bits - 1) - 1))
  {
    SignedWrapIs(value, incr, bits, j);
  }

  // ---------------------------------------------------------------- the operations of BITFIELD

  /** Overflow is reported exactly when the sum does not fit; the limit is then the remainder of the sum
      modulo 2^bits, or the nearest number that fits. */
  lemma CheckUnsignedExact(value: nat, incr: int, bits: nat, ow: Overflow, j: nat)
    requires bits >= 1 && j >= 1 && (value < Pow2(bits) || incr == 0)
    ensures var c := CheckUnsigned(value, incr, bits, ow, bits + j);
      && (c.overflow != 0 <==> !(0 <= value + incr < Pow2(bits)))
      && (c.overflow != 0 && ow == Wrap ==> c.limit == (value + incr) % Pow2(bits))
      && (c.overflow != 0 && ow == Sat ==> c.limit == Clamped(value + incr, 0, Pow2(bits) - 1))
  {
    CheckUnsignedCases(value, incr, bits, ow, j);
    ModIsRemainder(value + incr, bits);
  }

  lemma CheckSignedExact(value: int, incr: int, bits: nat, ow: Overflow, j: nat)
    requires bits >= 1 && j >= 1 && (0 - Pow2(bits - 1) <= value < Pow2(bits - 1) || incr == 0)
    ensures var c := CheckSigned(value, incr, bits, ow, bits + j);
      && (c.overflow != 0 <==> !(0 - Pow2(bits - 1) <= value + incr < Pow2(bits - 1)))
      && (c.overflow != 0 && ow == Wrap ==> c.limit == Signed((value + incr) % Pow2(bits), bits))
      && (c.overflow != 0 && ow == Sat ==> c.limit == Clamped(value + incr, 0 - Pow2(bits - 1), Pow2(bits - 1) - 1))
  {
    CheckSignedCases(value, incr, bits, ow, j);
    ModIsRemainder(value + incr, bits);
  }

  datatype Reply = Null | Number(n: int)

  /** What is stored in place of x where only lo..hi fit; nothing on failure. */
  function Stored(x: int, lo: int, hi: int, wrapped: int, ow: Overflow): Reply {
    if lo <= x <= hi then Number(x)
    else
      match ow
      case Wrap => Number(wrapped)
      case Sat => Number(Clamped(x, lo, hi))
      case Fail => Null
  }

  function UnsignedStored(x: int, bits: nat, ow: Overflow): Reply { Stored(x, 0, Pow2(bits) - 1, Mod(x, bits), ow) }

  function SignedStored(x: int, bits: nat, ow: Overflow): Reply
    requires bits >= 1
  {
    Stored(x, 0 - Pow2(bits - 1), Pow2(bits - 1) - 1, Signed(Mod(x, bits), bits), ow)
  }

  /** The old field holds what was stored, and no other bit changed; or nothing changed at all. */
  ghost predicate Holds(before: seq<Byte>, after: seq<Byte>, offset: nat, bits: nat, stored: Reply) {
    match stored
    case Null => after == before
    case Number(n) =>
      && Field(after, offset, bits) == Mod(n, bits)
      && forall o: nat :: o < offset || offset + bits <= o ==> StrBit(after, o) == StrBit(before, o)
  }

  /** Under WRAP every number is stored as its remainder modulo 2^bits, read as a signed number if the
      field is signed. */
  lemma WrapStores(x: int, bits: nat)
    requires bits >= 1
    ensures UnsignedStored(x, bits, Wrap) == Number(x % Pow2(bits))
    ensures SignedStored(x, bits, Wrap) == Number(Signed(x % Pow2(bits), bits))
  {
    ModIsRemainder(x, bits);
    if 0 <= x < Pow2(bits) { ModInside(x, bits); }
    if 0 - Pow2(bits - 1) <= x < Pow2(bits - 1) { SignedRoundTrip(x, bits); }
  }

  /** Under SAT a number that does not fit is stored as the end of the range on its side. */
  lemma SatStores(x: int, bits: nat)
    requires bits >= 1
    ensures UnsignedStored(x, bits, Sat)
            == Number(if x < 0 then 0 else if x >= Pow2(bits) then Pow2(bits) - 1 else x)
    ensures SignedStored(x, bits, Sat)
            == Number(if x < 0 - Pow2(bits - 1) then 0 - Pow2(bits - 1) else if x >= Pow2(bits - 1) then Pow2(bits - 1) - 1 else x)
  {}

  /** Under FAIL it is not stored. */
  lemma FailStores(x: int, bits: nat)
    requires bits >= 1
    ensures UnsignedStored(x, bits, Fail) == if 0 <= x < Pow2(bits) then Number(x) else Null
    ensures SignedStored(x, bits, Fail) == if 0 - Pow2(bits - 1) <= x < Pow2(bits - 1) then Number(x) else Null
  {}

  lemma UnsignedFits(x: int, bits: nat, ow: Overflow)
    ensures UnsignedStored(x, bits, ow).Number? ==> 0 <= UnsignedStored(x, bits, ow).n < Pow2(bits)
  {
    ModDiv(x, bits);
  }

  lemma SignedFits(x: int, bits: nat, ow: Overflow)
    requires bits >= 1
    ensures SignedStored(x, bits, ow).Number?
            ==> 0 - Pow2(bits - 1) <= SignedStored(x, bits, ow).n < Pow2(bits - 1)
  {
    SignedCongruent(x, bits);
  }

  /** Writing a number and what is then read. */
  method Store(p: array<Byte>, offset: nat, bits: nat, n: int, w: nat)
    requires 1 <= bits < w && bits <= 64 && offset + bits <= 8 * p.Length
    modifies p
    ensures Holds(old(p[..]), p[..], offset, bits, Number(n))
  {
    SetUnsignedBitfield(p, offset, bits, Mod(n, w));
    GetAfterSet(old(p[..]), p[..], offset, bits, Mod(n, w));
    ModMod(n, bits, w);
  }

  /** The check and what is stored. */
  lemma UnsignedCheckStores(value: nat, incr: int, bits: nat, ow: Overflow, w: nat)
    requires 1 <= bits < w && (value < Pow2(bits) || incr == 0)
    ensures var check := CheckUnsigned(value, incr, bits, ow, w);
      UnsignedStored(value + incr, bits, ow) ==
        if check.overflow != 0 && ow == Fail then Null
        else Number(if check.overflow != 0 then check.limit else value + incr)
  {
    CheckUnsignedCases(value, incr, bits, ow, w - bits);
  }

  lemma SignedCheckStores(value: int, incr: int, bits: nat, ow: Overflow, w: nat)
    requires 1 <= bits < w && (0 - Pow2(bits - 1) <= value < Pow2(bits - 1) || incr == 0)
    ensures var check := CheckSigned(value, incr, bits, ow, w);
      SignedStored(value + incr, bits, ow) ==
        if check.overflow != 0 && ow == Fail then Null
        else Number(if check.overflow != 0 then check.limit else value + incr)
  {
    CheckSignedCases(value, incr, bits, ow, w - bits);
  }

  /** SET and INCRBY on an unsigned field: SET replies the old value, INCRBY the new one. */
  method UnsignedOp(p: array<Byte>, offset: nat, bits: nat, incrby: bool, arg: int, ow: Overflow, w: nat) returns (reply: Reply)
    requires 1 <= bits < w && bits <= 64 && offset + bits <= 8 * p.Length
    modifies p
    ensures var field := old(Field(p[..], offset, bits));
      var stored := UnsignedStored(if incrby then field + arg else Mod(arg, w), bits, ow);
      && Holds(old(p[..]), p[..], offset, bits, stored)
      && reply == if stored.Null? then Null else if incrby then stored else Number(field)
  {
    var oldval := GetUnsignedBitfield(p, offset, bits);
    FieldBelow(p[..], offset, bits);
    var value, incr := if incrby then oldval else Mod(arg, w), if incrby then arg else 0;
    var check := CheckUnsigned(value, incr, bits, ow, w);
    UnsignedCheckStores(value, incr, bits, ow, w);
    if check.overflow != 0 && ow == Fail {
      return Null;
    }
    var newval := if check.overflow != 0 then check.limit else value + incr;
    Store(p, offset, bits, newval, w);
    return Number(if incrby then newval else oldval);
  }

  method SignedOp(p: array<Byte>, offset: nat, bits: nat, incrby: bool, arg: int, ow: Overflow, w: nat) returns (reply: Reply)
    requires 1 <= bits < w && bits <= 64 && offset + bits <= 8 * p.Length
    modifies p
    ensures var field := Signed(old(Field(p[..], offset, bits)), bits);
      var stored := SignedStored(if incrby then field + arg else arg, bits, ow);
      && Holds(old(p[..]), p[..], offset, bits, stored)
      && reply == if stored.Null? then Null else if incrby then stored else Number(field)
  {
    var u := GetUnsignedBitfield(p, offset, bits);
    FieldBelow(p[..], offset, bits);
    var oldval := SignExtend(u, bits, w);
    SignExtendIs(u, bits, w - bits);
    FieldInRange(u, bits);
    var value, incr := if incrby then oldval else arg, if incrby then arg else 0;
    var check := CheckSigned(value, incr, bits, ow, w);
    SignedCheckStores(value, incr, bits, ow, w);
    if check.overflow != 0 && ow == Fail {
      return Null;
    }
    var newval := if check.overflow != 0 then check.limit else value + incr;
    Store(p, offset, bits, newval, w);
    return Number(if incrby then newval else oldval);
  }

  lemma FieldInRange(u: nat, bits: nat)
    requires bits >= 1 && u < Pow2(bits)
    ensures 0 - Pow2(bits - 1) <= Signed(u, bits) < Pow2(bits - 1)
  {
    Doubling(bits);
  }

  /** A later GET of the field, unsigned or signed, gives the number that was stored. */
  lemma ReadBack(before: seq<Byte>, after: seq<Byte>, offset: nat, bits: nat, x: int, ow: Overflow)
    requires bits >= 1
    ensures UnsignedStored(x, bits, ow).Number? && Holds(before, after, offset, bits, UnsignedStored(x, bits, ow))
            ==> Field(after, offset, bits) == UnsignedStored(x, bits, ow).n
    ensures SignedStored(x, bits, ow).Number? && Holds(before, after, offset, bits, SignedStored(x, bits, ow))
            ==> Signed(Field(after, offset, bits), bits) == SignedStored(x, bits, ow).n
  {
    UnsignedFits(x, bits, ow);
    if UnsignedStored(x, bits, ow).Number? {
      ModInside(UnsignedStored(x, bits, ow).n, bits);
    }
    SignedFits(x, bits, ow);
    if SignedStored(x, bits, ow).Number? {
      SignedRoundTrip(SignedStored(x, bits, ow).n, bits);
    }
  }

  method CopyBytes(src: seq<Byte>, byte: nat) returns (buf: array<Byte>)
    ensures fresh(buf) && buf.Length == 9
    ensures forall k :: 0 <= k < 9 ==> buf[k] == if k + byte < |src| then src[k + byte] else 0
  {
    buf := new Byte[9](_ => 0);
    var i := 0;
    while i < 9 && i + byte < |src|
      invariant 0 <= i <= 9
      invariant forall k :: 0 <= k < 9 ==> buf[k] == if k < i && k + byte < |src| then src[k + byte] else 0
    {
      buf[i] := src[i + byte];
      i := i + 1;
    }
  }

  /** GET: up to nine bytes are copied to a zeroed buffer and read there. */
  method GetField(src: seq<Byte>, offset: nat, bits: nat, signed: bool, w: nat) returns (value: int)
    requires 1 <= bits < w && bits <= 64
    ensures value == if signed then Signed(Field(src, offset, bits), bits) else Field(src, offset, bits)
  {
    var byte := offset / 8;
    var buf := CopyBytes(src, byte);
    CopiedBits(src, buf[..], offset, bits);
    var u := GetUnsignedBitfield(buf, offset - byte * 8, bits);
    if signed {
      FieldBelow(src, offset, bits);
      SignExtendIs(u, bits, w - bits);
      return SignExtend(u, bits, w);
    }
    return u;
  }

  lemma CopiedBits(src: seq<Byte>, buf: seq<Byte>, offset: nat, bits: nat)
    requires bits <= 64 && |buf| == 9
    requires forall k :: 0 <= k < 9 ==> buf[k] == if k + offset / 8 < |src| then src[k + offset / 8] else 0
    ensures Field(buf, offset - offset / 8 * 8, bits) == Field(src, offset, bits)
  {
    var a := offset - offset / 8 * 8;
    forall o | a <= o < a + bits ensures StrBit(buf, o) == StrBit(src, o - a + offset) {
      CopiedBit(src, buf, offset / 8, o);
    }
    FieldSame(buf, a, src, offset, bits);
  }

  lemma CopiedBit(src: seq<Byte>, buf: seq<Byte>, byte: nat, o: nat)
    requires |buf| == 9 && o < 72 && forall k :: 0 <= k < 9 ==> buf[k] == if k + byte < |src| then src[k + byte] else 0
    ensures StrBit(buf, o) == StrBit(src, o + 8 * byte)
  {
    assert (o + 8 * byte) / 8 == o / 8 + byte && (o + 8 * byte) % 8 == o % 8;
    BitZero(7 - o % 8);
  }
}
