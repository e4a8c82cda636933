/** Moving a geohash cell by one in one coordinate, and its eight neighbours. A cell of step n has
    coordinates of n digits; x stands at the odd positions of the code and y at the even ones. */
module GeohashCells {
  import opened Words
  import opened Bits
  import opened Geohash
  import opened GeohashCode
  import opened GeohashMove

  // ---------------------------------------------------------------- the coordinates of a code

  function X(c: nat, n: nat): nat
    decreases n, c
  {
    if n == 0 then 0 else c / 2 % 2 + 2 * X(c / 4, n - 1)
  }

  function Y(c: nat, n: nat): nat
    decreases n, c
  {
    if n == 0 then 0 else c % 2 + 2 * Y(c / 4, n - 1)
  }

  lemma QuarterParts(c: nat, p: nat, q: nat, r: nat)
    requires p <= 1 && q <= 1
    ensures c == p + 2 * q + 4 * r <==> c % 2 == p && c / 2 % 2 == q && c / 4 == r
  {
    HalfParts(c, p, q + 2 * r);
    HalfParts(c / 2, q, r);
    QuarterIsHalfTwice(c);
  }

  lemma HalfParts(c: nat, p: nat, h: nat)
    requires p <= 1
    ensures c == p + 2 * h <==> c % 2 == p && c / 2 == h
  {}

  lemma QuarterIsHalfTwice(c: nat)
    ensures c / 4 == c / 2 / 2
  {}

  lemma CodeStep(c: nat, n: nat, x: nat, y: nat, r: nat)
    requires n > 0 && r == c / 4 && x == X(r, n - 1) && y == Y(r, n - 1) && Code(x, y, n - 1) == r
    requires x < Pow2(n - 1) && y < Pow2(n - 1)
    ensures X(c, n) < Pow2(n) && Y(c, n) < Pow2(n) && Code(X(c, n), Y(c, n), n) == c
  {
    var p, q := c % 2, c / 2 % 2;
    QuarterParts(c, p, q, r);
    HalfOfSum(q, x);
    HalfOfSum(p, y);
    CodeDigit(q + 2 * x, p + 2 * y, n);
  }

  /** Every code of 2n digits is that of its coordinates. */
  lemma {:induction false} CodeOfCoordinates(c: nat, n: nat)
    requires c < Pow2(2 * n)
    ensures X(c, n) < Pow2(n) && Y(c, n) < Pow2(n) && Code(X(c, n), Y(c, n), n) == c
    decreases n
  {
    if n > 0 {
      var r := c / 4;
      FourTimes(n);
      CodeOfCoordinates(r, n - 1);
      CodeStep(c, n, X(r, n - 1), Y(r, n - 1), r);
    }
  }

  lemma CoordinatesStep(a: nat, b: nat, n: nat, c: nat, r: nat)
    requires n > 0 && c == Code(a, b, n) && r == Code(a / 2, b / 2, n - 1)
    requires X(r, n - 1) == a / 2 && Y(r, n - 1) == b / 2
    ensures X(c, n) == a && Y(c, n) == b && c <= 3 + 4 * r
  {
    CodeDigit(a, b, n);
    QuarterParts(c, b % 2, a % 2, r);
  }

  /** The coordinates of a code are those it was made of. */
  lemma {:induction false} CoordinatesOfCode(a: nat, b: nat, n: nat)
    requires a < Pow2(n) && b < Pow2(n)
    ensures Code(a, b, n) < Pow2(2 * n) && X(Code(a, b, n), n) == a && Y(Code(a, b, n), n) == b
    decreases n
  {
    if n > 0 {
      FourTimes(n);
      HalfBelow(a, n);
      HalfBelow(b, n);
      CoordinatesOfCode(a / 2, b / 2, n - 1);
      CoordinatesStep(a, b, n, Code(a, b, n), Code(a / 2, b / 2, n - 1));
    }
  }

  // ---------------------------------------------------------------- words of 2k digits

  /** Cutting a sum to the word does not show under a mask within it. */
  lemma CutUnderMask(x: nat, m: nat, w: nat)
    requires m < Pow2(w)
    ensures And(Lo(x, w), m) == And(x, m)
  {
    AndSplit(x, m, w);
    LoSmall(m, w);
    AndSplit(Lo(x, w), m, w);
    LoHi(x, w);
    LoSmall(Lo(x, w), w);
    UpZero(w);
  }

  lemma {:induction false} FoursBelow(n: nat, k: nat)
    requires n <= k
    ensures 2 * Fours(n) < Pow2(2 * k)
    decreases n
  {
    if n > 0 {
      FoursBelow(n - 1, k - 1);
      FourTimes(k);
    }
  }

  /** `mask >> (2k - 2n)`. */
  lemma {:induction false} ShiftedMask(n: nat, j: nat)
    ensures Hi(Fours(n + j), 2 * j) == Fours(n) && Hi(2 * Fours(n + j), 2 * j) == 2 * Fours(n)
    decreases j
  {
    if j > 0 {
      var f := Fours(n + j - 1);
      assert Fours(n + j) == 1 + 4 * f;
      assert (1 + 4 * f) / 2 == 2 * f && 2 * (1 + 4 * f) / 2 == 1 + 4 * f && 2 * f / 2 == f;
      ShiftedMask(n, j - 1);
      assert Hi(1 + 4 * f, 2 * j) == Hi(2 * f, 2 * j - 1) == Hi(f, 2 * j - 2);
      assert Hi(2 * (1 + 4 * f), 2 * j) == Hi(1 + 4 * f, 2 * j - 1) == Hi(2 * f, 2 * j - 2);
    }
  }

  lemma OddUp(x: nat, zz: nat, a: nat, n: nat, w: nat)
    requires a < Pow2(n) && 2 * zz < Pow2(w) && x == 2 * Dig(a, n) && zz == Fours(n)
    ensures And(Lo(x + (zz + 1), w), 2 * zz) == 2 * Dig(Succ(a, n), n)
  {
    IncOddWord(x + (zz + 1), 2 * zz, a, n);
    CutUnderMask(x + (zz + 1), 2 * zz, w);
  }

  lemma EvenUp(y: nat, zz: nat, b: nat, n: nat, w: nat)
    requires b < Pow2(n) && 2 * zz < Pow2(w) && y == Dig(b, n) && zz == Fours(n)
    ensures And(Lo(y + (2 * zz + 1), w), zz) == Dig(Succ(b, n), n)
  {
    IncEvenWord(y + (2 * zz + 1), zz, b, n);
    CutUnderMask(y + (2 * zz + 1), zz, w);
  }

  lemma FilledOdd(x: nat, zz: nat, a: nat, n: nat)
    requires x == 2 * Dig(a, n) && zz == Fours(n)
    ensures Or(x, zz) == x + zz
  {
    OnesSpread(n);
    OrOfSpreads(a, Pow2(n) - 1, n);
  }

  lemma FilledEven(y: nat, zz: nat, b: nat, n: nat)
    requires y == Dig(b, n) && zz == Fours(n)
    ensures Or(y, 2 * zz) == y + 2 * zz
  {
    OnesSpread(n);
    OrOfSpreads(Pow2(n) - 1, b, n);
  }

  lemma OddDown(x: nat, zz: nat, a: nat, n: nat, k: nat, w: nat)
    requires a < Pow2(n) && n <= k && 2 * zz < Pow2(w) && w == 2 * k && x == 2 * Dig(a, n) && zz == Fours(n)
    ensures And(Lo(x + Pow2(w) - 1, w), 2 * zz) == 2 * Dig(Pred(a, n), n)
  {
    DecOddWord(x + Pow2(w) - 1, 2 * zz, a, n, k);
    CutUnderMask(x + Pow2(w) - 1, 2 * zz, w);
  }

  lemma EvenDown(y: nat, zz: nat, b: nat, n: nat, k: nat, w: nat)
    requires b < Pow2(n) && n <= k && 2 * zz < Pow2(w) && w == 2 * k && y == Dig(b, n) && zz == Fours(n)
    ensures And(Lo(y + Pow2(w) - 1, w), zz) == Dig(Pred(b, n), n)
  {
    DecEvenWord(y + Pow2(w) - 1, zz, b, n, k);
    CutUnderMask(y + Pow2(w) - 1, zz, w);
  }

  // ---------------------------------------------------------------- moves

  const ODD: nat := 0xAAAA_AAAA_AAAA_AAAA

  /** The masks and the masks shifted right by `64 - 2 * step`. */
  lemma Masks(n: nat, k: nat, w: nat)
    requires n <= k && k == 32 && w == 2 * k
    ensures B0 == Fours(k) && ODD == 2 * Fours(k) && 2 * Fours(n) < Pow2(w)
    ensures Hi(B0, w - 2 * n) == Fours(n) && Hi(ODD, w - 2 * n) == 2 * Fours(n)
  {
    WholeMasks(k);
    ShiftedMask(n, k - n);
    FoursBelow(n, k);
  }

  lemma WholeMasks(k: nat)
    requires k == 32
    ensures B0 == Fours(k) && ODD == 2 * Fours(k)
  {
    MaskB0(k - 32, k);
    MaskIsFours(k);
  }

  /** A coordinate of n digits moved by the sign of d, modulo 2^n. */
  function Moved(a: nat, d: int, n: nat): nat {
    if d == 0 then a else if d > 0 then Succ(a, n) else Pred(a, n)
  }

  lemma MovedBelow(a: nat, d: int, n: nat)
    requires a < Pow2(n)
    ensures Moved(a, d, n) < Pow2(n)
  {
  }

  /** r is c moved in x by dx and in y by dy. */
  ghost predicate IsMove(c: nat, r: nat, dx: int, dy: int, n: nat) {
    r < Pow2(2 * n) && X(r, n) == Moved(X(c, n), dx, n) && Y(r, n) == Moved(Y(c, n), dy, n)
  }

  lemma CoordinatesDecide(c: nat, r: nat, n: nat)
    requires c < Pow2(2 * n) && r < Pow2(2 * n) && X(c, n) == X(r, n) && Y(c, n) == Y(r, n)
    ensures c == r
  {
    CodeOfCoordinates(c, n);
    CodeOfCoordinates(r, n);
  }

  /** The opposite moves lead back to the very same code. */
  lemma OppositeMovesCancel(c: nat, r: nat, s: nat, dx: int, dy: int, n: nat)
    requires c < Pow2(2 * n) && IsMove(c, r, dx, dy, n) && IsMove(r, s, 0 - dx, 0 - dy, n)
    ensures s == c
  {
    CodeOfCoordinates(c, n);
    CoordinatesDecide(c, s, n);
  }

  lemma JoinedParts(bits: nat, a: nat, b: nat, x: nat, y: nat, n: nat)
    requires a < Pow2(n) && b < Pow2(n) && x == 2 * Dig(a, n) && y == Dig(b, n) && bits == Or(x, y)
    ensures bits < Pow2(2 * n) && X(bits, n) == a && Y(bits, n) == b
  {
    OrOfSpreads(a, b, n);
    CoordinatesOfCode(a, b, n);
  }

  lemma Parts(bits: nat, n: nat, k: nat)
    requires n <= k && bits < Pow2(2 * n)
    ensures X(bits, n) < Pow2(n) && Y(bits, n) < Pow2(n)
    ensures And(bits, Fours(k)) == Dig(Y(bits, n), n) && And(bits, 2 * Fours(k)) == 2 * Dig(X(bits, n), n)
  {
    CodeOfCoordinates(bits, n);
    HalvesOf(bits, X(bits, n), Y(bits, n), n, k);
  }

  /** The arithmetic of geohash_move_x on the odd digits: `zz` fills the even ones, `mask` cuts. */
  method ShiftOdd(x: nat, zz: nat, mask: nat, d: int, ghost a: nat, ghost n: nat, ghost k: nat, w: nat) returns (r: nat)
    requires d != 0 && a < Pow2(n) && n <= k && w == 2 * k && 2 * zz < Pow2(w)
    requires x == 2 * Dig(a, n) && zz == Fours(n) && mask == 2 * zz
    ensures r == 2 * Dig(Moved(a, d, n), n)
  {
    if d > 0 {
      OddUp(x, zz, a, n, w);
      r := Lo(x + (zz + 1), w);
    } else {
      FilledOdd(x, zz, a, n);
      OddDown(x, zz, a, n, k, w);
      r := Or(x, zz);
      r := Lo(r + Pow2(w) - (zz + 1), w);
    }
    r := And(r, mask);
  }

  /** The same on the even digits. */
  method ShiftEven(y: nat, zz: nat, mask: nat, d: int, ghost b: nat, ghost n: nat, ghost k: nat, w: nat) returns (r: nat)
    requires d != 0 && b < Pow2(n) && n <= k && w == 2 * k && zz < Pow2(w)
    requires y == Dig(b, n) && mask == Fours(n) && zz == 2 * mask
    ensures r == Dig(Moved(b, d, n), n)
  {
    if d > 0 {
      EvenUp(y, mask, b, n, w);
      r := Lo(y + (zz + 1), w);
    } else {
      FilledEven(y, mask, b, n);
      EvenDown(y, mask, b, n, k, w);
      r := Or(y, zz);
      r := Lo(r + Pow2(w) - (zz + 1), w);
    }
    r := And(r, mask);
  }

  method MoveOdd(bits: nat, n: nat, d: int, k: nat, w: nat) returns (r: nat)
    requires 1 <= n <= k && k == 32 && w == 2 * k && bits < Pow2(2 * n)
    ensures IsMove(bits, r, d, 0, n)
  {
    if d == 0 {
      return bits;
    }
    ghost var a, b := X(bits, n), Y(bits, n);
    Masks(n, k, w);
    Parts(bits, n, k);
    var x, y := And(bits, ODD), And(bits, B0);
    x := ShiftOdd(x, Hi(B0, w - 2 * n), Hi(ODD, w - 2 * n), d, a, n, k, w);
    r := Or(x, y);
    MovedBelow(a, d, n);
    JoinedParts(r, Moved(a, d, n), b, x, y, n);
  }

  method MoveEven(bits: nat, n: nat, d: int, k: nat, w: nat) returns (r: nat)
    requires 1 <= n <= k && k == 32 && w == 2 * k && bits < Pow2(2 * n)
    ensures IsMove(bits, r, 0, d, n)
  {
    if d == 0 {
      return bits;
    }
    ghost var a, b := X(bits, n), Y(bits, n);
    Masks(n, k, w);
    Parts(bits, n, k);
    var x, y := And(bits, ODD), And(bits, B0);
    y := ShiftEven(y, Hi(ODD, w - 2 * n), Hi(B0, w - 2 * n), d, b, n, k, w);
    r := Or(x, y);
    MovedBelow(b, d, n);
    JoinedParts(r, a, Moved(b, d, n), x, y, n);
  }

  // ---------------------------------------------------------------- cells

  class GeoHashBits {
    var bits: nat
    var step: nat

    ghost predicate Valid()
      reads this
    {
      1 <= step <= 32 && bits < Pow2(2 * step)
    }

    /** The cell stands at the given place of the grid of its step. */
    ghost predicate At(x: nat, y: nat, n: nat)
      reads this
    {
      Valid() && step == n && X(bits, n) == x && Y(bits, n) == y
    }

    constructor (bits: nat, step: nat)
      requires 1 <= step <= 32 && bits < Pow2(2 * step)
      ensures At(X(bits, step), Y(bits, step), step)
    {
      this.bits, this.step := bits, step;
    }

    method MoveX(d: int)
      requires Valid()
      modifies `bits
      ensures At(Moved(X(old(bits), step), d, step), Y(old(bits), step), step)
    {
      bits := MoveOdd(bits, step, d, 32, 64);
    }

    method MoveY(d: int)
      requires Valid()
      modifies `bits
      ensures At(X(old(bits), step), Moved(Y(old(bits), step), d, step), step)
    {
      bits := MoveEven(bits, step, d, 32, 64);
    }

    /** The cell moved in both coordinates. */
    method Neighbor(dx: int, dy: int) returns (c: GeoHashBits)
      requires Valid()
      ensures fresh(c)
      ensures c.At(Moved(X(bits, step), dx, step), Moved(Y(bits, step), dy, step), step)
    {
      c := new GeoHashBits(bits, step);
      c.MoveX(dx);
      c.MoveY(dy);
    }
  }

  class GeoHashNeighbors {
    var north: GeoHashBits
    var east: GeoHashBits
    var west: GeoHashBits
    var south: GeoHashBits
    var northEast: GeoHashBits
    var southEast: GeoHashBits
    var northWest: GeoHashBits
    var southWest: GeoHashBits

    /** The eight cells around a place, on a grid that wraps at its edges. */
    ghost predicate Around(x: nat, y: nat, n: nat)
      reads this, north, east, west, south, northEast, southEast, northWest, southWest
    {
      && north.At(x, Succ(y, n), n)
      && south.At(x, Pred(y, n), n)
      && east.At(Succ(x, n), y, n)
      && west.At(Pred(x, n), y, n)
      && northEast.At(Succ(x, n), Succ(y, n), n)
      && northWest.At(Pred(x, n), Succ(y, n), n)
      && southEast.At(Succ(x, n), Pred(y, n), n)
      && southWest.At(Pred(x, n), Pred(y, n), n)
    }

    constructor (hash: GeoHashBits)
      requires hash.Valid()
      ensures Around(X(hash.bits, hash.step), Y(hash.bits, hash.step), hash.step)
    {
      var e := hash.Neighbor(1, 0);
      var w := hash.Neighbor(-1, 0);
      var s := hash.Neighbor(0, -1);
      var n := hash.Neighbor(0, 1);
      var nw := hash.Neighbor(-1, 1);
      var ne := hash.Neighbor(1, 1);
      var se := hash.Neighbor(1, -1);
      var sw := hash.Neighbor(-1, -1);
      north, east, west, south := n, e, w, s;
      northEast, southEast, northWest, southWest := ne, se, nw, sw;
    }
  }
}
