/** BITOP: combining strings byte by byte, and four words of `size` bytes at a time as far as all
    the strings reach. */
module Bitop {
  import opened Words
  import opened Bits
  import opened Bitfield
  import opened Bitpos

  datatype Op = OpAnd | OpOr | OpXor | OpNot

  // ---------------------------------------------------------------- byte by byte

  function Bitwise(op: Op, a: nat, b: nat): nat {
    match op
    case OpAnd => And(a, b)
    case OpOr => Or(a, b)
    case OpXor => Xor(a, b)
    case OpNot => a
  }

  lemma BitwiseByte(op: Op, a: Byte, b: Byte)
    ensures Bitwise(op, a, b) < 256
  {
    ByteRange();
    BitwiseBelow(a, b, 8);
  }

  function ByteOp(op: Op, a: Byte, b: Byte): Byte {
    BitwiseByte(op, a, b);
    Bitwise(op, a, b)
  }

  /** Missing bytes count as zero. */
  function PadByte(s: seq<Byte>, j: nat): Byte { if j < |s| then s[j] else 0 }

  /** The first n strings combined at byte j. */
  function Combined(op: Op, srcs: seq<seq<Byte>>, j: nat, n: nat): Byte
    requires 1 <= n <= |srcs|
  {
    if n == 1 then if op == OpNot then 255 - PadByte(srcs[0], j) else PadByte(srcs[0], j)
    else ByteOp(op, Combined(op, srcs, j, n - 1), PadByte(srcs[n - 1], j))
  }

  function OnesAt(srcs: seq<seq<Byte>>, j: nat, k: nat, n: nat): nat
    requires n <= |srcs|
  {
    if n == 0 then 0 else OnesAt(srcs, j, k, n - 1) + Bit(PadByte(srcs[n - 1], j), k)
  }

  /** Bit by bit: all, some, or an odd number of the strings have the bit set; or the one has not. */
  lemma {:induction false} CombinedBit(op: Op, srcs: seq<seq<Byte>>, j: nat, k: nat, n: nat)
    requires 1 <= n <= |srcs| && k < 8 && (op == OpNot ==> n == 1)
    ensures OnesAt(srcs, j, k, n) <= n
    ensures Bit(Combined(op, srcs, j, n), k) == 1 <==>
      match op
      case OpAnd => OnesAt(srcs, j, k, n) == n
      case OpOr => OnesAt(srcs, j, k, n) > 0
      case OpXor => OnesAt(srcs, j, k, n) % 2 == 1
      case OpNot => OnesAt(srcs, j, k, n) == 0
  {
    var last := PadByte(srcs[n - 1], j);
    if n == 1 {
      assert OnesAt(srcs, j, k, n) == OnesAt(srcs, j, k, 0) + Bit(last, k);
      if op == OpNot {
        ByteRange();
        BitNot(last, 8, k);
      }
    } else {
      CombinedBit(op, srcs, j, k, n - 1);
      var rest := Combined(op, srcs, j, n - 1);
      BitAnd(rest, last, k);
      BitOr(rest, last, k);
      BitXor(rest, last, k);
    }
  }

  // ---------------------------------------------------------------- words

  /** The last byte and the others are combined separately. */
  lemma BitwiseSplit(op: Op, x: nat, a: Byte, y: nat, b: Byte)
    ensures Bitwise(op, 256 * x + a, 256 * y + b) == 256 * Bitwise(op, x, y) + Bitwise(op, a, b)
  {
    var u, v := 256 * x + a, 256 * y + b;
    ByteRange();
    UpByEight(x);
    UpByEight(y);
    LoHiUnique(u, 8, a, x);
    LoHiUnique(v, 8, b, y);
    UpByEight(Bitwise(op, x, y));
    match op
    case OpAnd => AndSplit(u, v, 8);
    case OpOr => OrSplit(u, v, 8);
    case OpXor => XorSplit(u, v, 8);
    case OpNot =>
  }

  function ZipBytes(op: Op, s: seq<Byte>, t: seq<Byte>, i: nat, n: nat): seq<Byte>
    requires i + n <= |s| && i + n <= |t|
  {
    seq<Byte>(n, k requires 0 <= k < n => ByteOp(op, s[i + k], t[i + k]))
  }

  function NotBytes(s: seq<Byte>, i: nat, n: nat): seq<Byte>
    requires i + n <= |s|
  {
    seq<Byte>(n, k requires 0 <= k < n => NotByte(s[i + k]))
  }

  function NotByte(b: Byte): Byte { 255 - b }

  /** A word operation works on the bytes. */
  lemma {:induction false} WordOp(op: Op, s: seq<Byte>, t: seq<Byte>, r: seq<Byte>, i: nat, n: nat)
    requires i + n <= |s| && i + n <= |t| && n <= |r|
    requires forall k :: 0 <= k < n ==> r[k] == ByteOp(op, s[i + k], t[i + k])
    ensures Bitwise(op, Load(s, i, n), Load(t, i, n)) == Load(r, 0, n)
  {
    if n > 0 {
      WordOp(op, s, t, r, i, n - 1);
      BitwiseSplit(op, Load(s, i, n - 1), s[i + n - 1], Load(t, i, n - 1), t[i + n - 1]);
      assert r[n - 1] == ByteOp(op, s[i + (n - 1)], t[i + (n - 1)]);
    }
  }

  /** Complement: all ones minus the word. */
  lemma {:induction false} WordNot(s: seq<Byte>, r: seq<Byte>, i: nat, n: nat)
    requires i + n <= |s| && n <= |r| && forall k :: 0 <= k < n ==> r[k] == NotByte(s[i + k])
    ensures Load(s, i, n) <= SkipWord(0, n) && SkipWord(0, n) - Load(s, i, n) == Load(r, 0, n)
  {
    if n > 0 {
      WordNot(s, r, i, n - 1);
      assert r[n - 1] == NotByte(s[i + (n - 1)]);
    }
  }

  // ---------------------------------------------------------------- in place on the result

  lemma LastByte(x: nat, b: Byte)
    ensures (256 * x + b) % 256 == b && (256 * x + b) / 256 == x
  {}

  /** Stores a word whose bytes are r. */
  method StoreWord(res: array<Byte>, at: nat, n: nat, value: nat, ghost r: seq<Byte>)
    requires at + n <= res.Length && |r| == n && value == Load(r, 0, n)
    modifies res
    ensures forall k :: 0 <= k < res.Length ==> res[k] == if at <= k < at + n then r[k - at] else old(res[k])
  {
    var v, j := value, n;
    while j > 0
      invariant 0 <= j <= n && v == Load(r, 0, j)
      invariant forall k :: 0 <= k < res.Length ==> res[k] == if at + j <= k < at + n then r[k - at] else old(res[k])
    {
      LastByte(Load(r, 0, j - 1), r[j - 1]);
      res[at + j - 1] := v % 256;
      v, j := v / 256, j - 1;
    }
  }

  /** `lres[q] op= lp[i][q]`. */
  method CombineWord(op: Op, res: array<Byte>, at: nat, src: seq<Byte>, size: nat)
    requires at + size <= res.Length && at + size <= |src|
    modifies res
    ensures forall k :: 0 <= k < res.Length ==>
      res[k] == if at <= k < at + size then ByteOp(op, old(res[k]), src[k]) else old(res[k])
  {
    ghost var r := ZipBytes(op, res[..], src, at, size);
    WordOp(op, res[..], src, r, at, size);
    StoreWord(res, at, size, Bitwise(op, Load(res[..], at, size), Load(src, at, size)), r);
  }

  method NegateWord(res: array<Byte>, at: nat, size: nat)
    requires at + size <= res.Length
    modifies res
    ensures forall k :: 0 <= k < res.Length ==> res[k] == if at <= k < at + size then 255 - old(res[k]) else old(res[k])
  {
    ghost var r := NotBytes(res[..], at, size);
    WordNot(res[..], r, at, size);
    StoreWord(res, at, size, SkipWord(0, size) - Load(res[..], at, size), r);
  }

  method CombineFour(op: Op, res: array<Byte>, at: nat, src: seq<Byte>, size: nat)
    requires at + 4 * size <= res.Length && at + 4 * size <= |src|
    modifies res
    ensures forall k :: 0 <= k < res.Length ==>
      res[k] == if at <= k < at + 4 * size then ByteOp(op, old(res[k]), src[k]) else old(res[k])
  {
    CombineWord(op, res, at, src, size);
    CombineWord(op, res, at + size, src, size);
    CombineWord(op, res, at + 2 * size, src, size);
    CombineWord(op, res, at + 3 * size, src, size);
  }

  method NegateFour(res: array<Byte>, at: nat, size: nat)
    requires at + 4 * size <= res.Length
    modifies res
    ensures forall k :: 0 <= k < res.Length ==> res[k] == if at <= k < at + 4 * size then 255 - old(res[k]) else old(res[k])
  {
    NegateWord(res, at, size);
    NegateWord(res, at + size, size);
    NegateWord(res, at + 2 * size, size);
    NegateWord(res, at + 3 * size, size);
  }

  /** The bytes from `from` to `to` combine the first n strings, and the others are as before. */
  ghost predicate Block(op: Op, srcs: seq<seq<Byte>>, before: seq<Byte>, after: seq<Byte>, from: nat, to: nat, n: nat)
    requires 1 <= n <= |srcs|
  {
    && |after| == |before|
    && forall k :: 0 <= k < |after| ==> after[k] == if from <= k < to then Combined(op, srcs, k, n) else before[k]
  }

  /** Four words of every string. */
  method CombineBlock(op: Op, res: array<Byte>, at: nat, srcs: seq<seq<Byte>>, size: nat)
    requires |srcs| >= 1 && op != OpNot && at + 4 * size <= res.Length
    requires forall i :: 0 <= i < |srcs| ==> at + 4 * size <= |srcs[i]|
    requires forall k :: at <= k < at + 4 * size ==> res[k] == srcs[0][k]
    modifies res
    ensures Block(op, srcs, old(res[..]), res[..], at, at + 4 * size, |srcs|)
  {
    var i := 1;
    while i < |srcs|
      invariant 1 <= i <= |srcs| && Block(op, srcs, old(res[..]), res[..], at, at + 4 * size, i)
    {
      CombineFour(op, res, at, srcs[i], size);
      i := i + 1;
    }
  }

  /** The fast path over as many blocks as the shortest string has. */
  method FastPath(op: Op, res: array<Byte>, srcs: seq<seq<Byte>>, minlen: nat, size: nat) returns (j: nat)
    requires |srcs| >= 1 && size >= 1 && (op == OpNot ==> |srcs| == 1) && minlen <= res.Length
    requires forall i :: 0 <= i < |srcs| ==> minlen <= |srcs[i]|
    requires forall k :: 0 <= k < minlen ==> res[k] == srcs[0][k]
    modifies res
    ensures j <= minlen < j + 4 * size && Block(op, srcs, old(res[..]), res[..], 0, j, |srcs|)
  {
    j := 0;
    while minlen - j >= 4 * size
      invariant 0 <= j <= minlen && Block(op, srcs, old(res[..]), res[..], 0, j, |srcs|)
    {
      if op == OpNot {
        NegateFour(res, j, size);
      } else {
        CombineBlock(op, res, j, srcs, size);
      }
      j := j + 4 * size;
    }
  }

  /** The strings combined at byte j, as the slow loop does it. */
  method CombineByte(op: Op, srcs: seq<seq<Byte>>, j: nat) returns (output: Byte)
    requires |srcs| >= 1 && (op == OpNot ==> |srcs| == 1)
    ensures output == Combined(op, srcs, j, |srcs|)
  {
    output := if |srcs[0]| <= j then 0 else srcs[0][j];
    if op == OpNot {
      output := 255 - output;
    }
    var i := 1;
    while i < |srcs|
      invariant 1 <= i <= |srcs| && output == Combined(op, srcs, j, i)
    {
      var byte: Byte := if |srcs[i]| <= j then 0 else srcs[i][j];
      output := ByteOp(op, output, byte);
      i := i + 1;
    }
  }

  method Lengths(srcs: seq<seq<Byte>>) returns (minlen: nat, maxlen: nat)
    requires |srcs| >= 1
    ensures forall i :: 0 <= i < |srcs| ==> minlen <= |srcs[i]| <= maxlen
    ensures exists i :: 0 <= i < |srcs| && |srcs[i]| == maxlen
    ensures exists i :: 0 <= i < |srcs| && |srcs[i]| == minlen
  {
    minlen, maxlen := |srcs[0]|, |srcs[0]|;
    var j := 1;
    while j < |srcs|
      invariant 1 <= j <= |srcs|
      invariant forall i :: 0 <= i < j ==> minlen <= |srcs[i]| <= maxlen
      invariant exists i :: 0 <= i < j && |srcs[i]| == maxlen
      invariant exists i :: 0 <= i < j && |srcs[i]| == minlen
    {
      if |srcs[j]| > maxlen {
        maxlen := |srcs[j]|;
      }
      if |srcs[j]| < minlen {
        minlen := |srcs[j]|;
      }
      j := j + 1;
    }
  }

  /** The core of BITOP: keys that do not exist are empty strings. The result is as long as the
      longest string and combines them byte by byte, whichever part was done word by word. */
  method Compute(op: Op, srcs: seq<seq<Byte>>, size: nat) returns (res: array<Byte>)
    requires |srcs| >= 1 && size >= 1 && (op == OpNot ==> |srcs| == 1)
    ensures fresh(res) && (forall i :: 0 <= i < |srcs| ==> |srcs[i]| <= res.Length)
    ensures exists i :: 0 <= i < |srcs| && |srcs[i]| == res.Length
    ensures forall j :: 0 <= j < res.Length ==> res[j] == Combined(op, srcs, j, |srcs|)
  {
    var minlen, maxlen := Lengths(srcs);
    res := new Byte[maxlen](_ => 0);
    var j := 0;
    if minlen >= 4 * size && |srcs| <= 16 {
      forall k | 0 <= k < minlen {
        res[k] := srcs[0][k];
      }
      j := FastPath(op, res, srcs, minlen, size);
    }
    while j < maxlen
      invariant 0 <= j <= maxlen && forall k :: 0 <= k < j ==> res[k] == Combined(op, srcs, k, |srcs|)
    {
      var output := CombineByte(op, srcs, j);
      res[j] := output;
      j := j + 1;
    }
  }
}
