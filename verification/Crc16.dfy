/** CRC-16/IBM over a byte string (crc16.ts), and which corruptions of the data it must detect. */
module Crc16 {
  import opened Bytes

  const POLY := 0xa001

  /** Bitwise exclusive or of two non-negative integers. */
  function Xor(a: nat, b: nat): nat {
    if a == 0 && b == 0 then 0 else 2 * Xor(a / 2, b / 2) + (a + b) % 2
  }

  /** One bit step: shift right, folding the polynomial in when a one falls out. */
  function Shift(c: nat): nat {
    if c % 2 == 1 then Xor(c / 2, POLY) else c / 2
  }

  function Shifts(c: nat, n: nat): nat {
    if n == 0 then c else Shift(Shifts(c, n - 1))
  }

  function Step(c: nat, b: byte): nat { Shifts(Xor(c, b), 8) }

  /** The register after feeding data into register c. */
  function Feed(c: nat, data: seq<byte>): nat
    decreases |data|
  {
    if data == [] then c else Step(Feed(c, data[..|data| - 1]), data[|data| - 1])
  }

  function Crc(data: seq<byte>): nat { Feed(0, data) }

  /**
    The register after all the data: CRC-16/IBM, the remainder of a polynomial division. It never leaves sixteen bits, so
    the final mask changes nothing.
   */
  method Crc16IBM(data: seq<byte>) returns (crc: nat)
    ensures crc == Crc(data) && crc < 0x1_0000
    ensures BitsOf(crc, 16) == Remainder(DataBits(data) + Zeros(16))
  {
    hide Xor, BitsOf, Remainder, DataBits;
    crc := 0;
    for i := 0 to |data|
      invariant crc == Feed(0, data[..i])
    {
      assert data[..i + 1][..i] == data[..i];
      ghost var before := Xor(crc, data[i]);
      crc := Xor(crc, data[i]);
      for bit := 0 to 8
        invariant crc == Shifts(before, bit)
      {
        crc := if crc % 2 == 1 then Xor(crc / 2, 0xa001) else crc / 2;
      }
    }
    assert data[..|data|] == data;
    CrcBound(data);
    CrcIsRemainder(data);
    crc := crc % 0x1_0000;
  }

  // ---- The group of bit strings under XOR -----------------------------------

  lemma {:induction false} XorZero(a: nat)
    ensures Xor(a, 0) == a && Xor(0, a) == a && Xor(a, a) == 0
  {
    if a > 0 {
      XorZero(a / 2);
    }
  }

  lemma {:induction false} XorCommutes(a: nat, b: nat)
    ensures Xor(a, b) == Xor(b, a)
  {
    if a > 0 || b > 0 {
      XorCommutes(a / 2, b / 2);
    }
  }

  lemma XorHalves(a: nat, b: nat)
    ensures Xor(a, b) / 2 == Xor(a / 2, b / 2) && Xor(a, b) % 2 == (a + b) % 2
  {}

  lemma SameHalves(x: nat, y: nat)
    requires x / 2 == y / 2 && x % 2 == y % 2
    ensures x == y
  {}

  lemma Parities(a: nat, b: nat, c: nat, x: nat, y: nat)
    requires x % 2 == (a + b) % 2 && y % 2 == (b + c) % 2
    ensures (x + c) % 2 == (a + y) % 2
  {}

  lemma AssociateParity(a: nat, b: nat, c: nat)
    ensures Xor(Xor(a, b), c) % 2 == Xor(a, Xor(b, c)) % 2
  {
    XorHalves(a, b);
    XorHalves(b, c);
    XorHalves(Xor(a, b), c);
    XorHalves(a, Xor(b, c));
    Parities(a, b, c, Xor(a, b), Xor(b, c));
  }

  lemma {:induction false} XorAssociates(a: nat, b: nat, c: nat)
    ensures Xor(Xor(a, b), c) == Xor(a, Xor(b, c))
    decreases a + b + c
  {
    if a > 0 || b > 0 || c > 0 {
      hide Xor;
      XorAssociates(a / 2, b / 2, c / 2);
      XorHalves(a, b);
      XorHalves(b, c);
      XorHalves(Xor(a, b), c);
      XorHalves(a, Xor(b, c));
      AssociateParity(a, b, c);
      SameHalves(Xor(Xor(a, b), c), Xor(a, Xor(b, c)));
    }
  }

  lemma XorCancels(a: nat, b: nat)
    ensures Xor(Xor(a, b), b) == a
  {
    XorAssociates(a, b, b);
    XorZero(a);
    XorZero(b);
  }

  lemma XorInterchange(a: nat, b: nat, x: nat, y: nat)
    ensures Xor(Xor(a, b), Xor(x, y)) == Xor(Xor(a, x), Xor(b, y))
  {
    XorAssociates(a, b, Xor(x, y));
    XorAssociates(b, x, y);
    XorCommutes(b, x);
    XorAssociates(x, b, y);
    XorAssociates(a, x, Xor(b, y));
  }

  lemma XorIsZero(a: nat, b: nat)
    requires Xor(a, b) == 0
    ensures a == b
  {
    XorCancels(a, b);
    XorZero(b);
  }

  lemma {:induction false} XorBound(a: nat, b: nat, n: nat)
    requires a < Pow2(n) && b < Pow2(n)
    ensures Xor(a, b) < Pow2(n)
  {
    if n > 0 {
      XorBound(a / 2, b / 2, n - 1);
      XorHalves(a, b);
    } else {
      assert a == 0 && b == 0;
    }
  }

  /** A bit at position n that only one side has survives. */
  lemma {:induction false} XorTop(a: nat, b: nat, n: nat)
    requires a < Pow2(n) <= b
    ensures Xor(a, b) >= Pow2(n)
  {
    if n > 0 {
      XorTop(a / 2, b / 2, n - 1);
      XorHalves(a, b);
    } else {
      XorZero(b);
    }
  }

  // ---- XOR-linearity -------------------------------------------------------

  lemma XorMoves(x: nat, y: nat, p: nat)
    ensures Xor(Xor(x, p), Xor(y, p)) == Xor(x, y)
    ensures Xor(Xor(x, p), y) == Xor(Xor(x, y), p)
    ensures Xor(x, Xor(y, p)) == Xor(Xor(x, y), p)
  {
    XorInterchange(x, p, y, p);
    XorZero(p);
    XorZero(Xor(x, y));
    XorAssociates(x, p, y);
    XorCommutes(p, y);
    XorAssociates(x, y, p);
  }

  lemma ShiftLinear(a: nat, b: nat)
    ensures Shift(Xor(a, b)) == Xor(Shift(a), Shift(b))
  {
    XorHalves(a, b);
    XorMoves(a / 2, b / 2, POLY);
    ParityCases(a, b);
  }

  lemma ParityCases(a: nat, b: nat)
    ensures (a + b) % 2 == 1 <==> ((a % 2 == 1) != (b % 2 == 1))
  {}

  lemma {:induction false} ShiftsLinear(a: nat, b: nat, n: nat)
    ensures Shifts(Xor(a, b), n) == Xor(Shifts(a, n), Shifts(b, n))
  {
    if n > 0 {
      ShiftsLinear(a, b, n - 1);
      ShiftLinear(Shifts(a, n - 1), Shifts(b, n - 1));
    }
  }

  function XorBytes(d: seq<byte>, e: seq<byte>): (x: seq<byte>)
    requires |d| == |e|
    ensures |x| == |d| && forall i :: 0 <= i < |d| ==> x[i] == Xor(d[i], e[i])
  {
    if d == [] then [] else
      Pow2Values();
      XorBound(d[|d| - 1], e[|d| - 1], 8);
      XorBytes(d[..|d| - 1], e[..|d| - 1]) + [Xor(d[|d| - 1], e[|d| - 1])]
  }

  /** XOR-linearity on equal-length inputs, from any two starting registers. */
  lemma {:induction false} FeedLinear(c: nat, d: seq<byte>, k: nat, e: seq<byte>)
    requires |d| == |e|
    ensures Feed(Xor(c, k), XorBytes(d, e)) == Xor(Feed(c, d), Feed(k, e))
    decreases |d|
  {
    if d != [] {
      var n := |d| - 1;
      FeedLinear(c, d[..n], k, e[..n]);
      assert XorBytes(d, e)[..n] == XorBytes(d[..n], e[..n]);
      var a, b := Feed(c, d[..n]), Feed(k, e[..n]);
      XorInterchange(a, b, d[n], e[n]);
      ShiftsLinear(Xor(a, d[n]), Xor(b, e[n]), 8);
    }
  }

  lemma CrcLinear(d: seq<byte>, e: seq<byte>)
    requires |d| == |e|
    ensures Crc(XorBytes(d, e)) == Xor(Crc(d), Crc(e))
  {
    FeedLinear(0, d, 0, e);
  }

  // ---- The register is 16 bits wide ----------------------------------------

  lemma {:induction false} ShiftsBound(c: nat, n: nat)
    requires c < 0x1_0000
    ensures Shifts(c, n) < 0x1_0000
  {
    if n > 0 {
      ShiftsBound(c, n - 1);
      Pow2Values();
      XorBound(Shifts(c, n - 1) / 2, POLY, 16);
    }
  }

  lemma {:induction false} FeedBound(c: nat, data: seq<byte>)
    requires c < 0x1_0000
    ensures Feed(c, data) < 0x1_0000
    decreases |data|
  {
    if data != [] {
      FeedBound(c, data[..|data| - 1]);
      Pow2Values();
      XorBound(Feed(c, data[..|data| - 1]), data[|data| - 1], 16);
      ShiftsBound(Xor(Feed(c, data[..|data| - 1]), data[|data| - 1]), 8);
    }
  }

  lemma CrcBound(data: seq<byte>)
    ensures Crc(data) < 0x1_0000
  {
    FeedBound(0, data);
  }

  // ---- The register is injective in itself ----------------------------------

  /** An odd register becomes one with the top bit set, because the polynomial has it. */
  lemma OddShift(c: nat)
    requires c < 0x1_0000 && c % 2 == 1
    ensures Shift(c) >= 0x8000
  {
    Pow2Values();
    XorTop(c / 2, POLY, 15);
  }

  lemma {:induction false} ShiftsZero(c: nat, n: nat)
    requires c < 0x1_0000 && Shifts(c, n) == 0
    ensures c == 0
  {
    if n > 0 {
      ShiftsBound(c, n - 1);
      if Shifts(c, n - 1) % 2 == 1 {
        OddShift(Shifts(c, n - 1));
      }
      ShiftsZero(c, n - 1);
    }
  }

  lemma ShiftsInjective(a: nat, b: nat, n: nat)
    requires a < 0x1_0000 && b < 0x1_0000 && Shifts(a, n) == Shifts(b, n)
    ensures a == b
  {
    ShiftsLinear(a, b, n);
    XorZero(Shifts(a, n));
    Pow2Values();
    XorBound(a, b, 16);
    ShiftsZero(Xor(a, b), n);
    XorIsZero(a, b);
  }

  /** Feeding the same data never merges two distinct registers. */
  lemma {:induction false} FeedInjective(a: nat, b: nat, data: seq<byte>)
    requires a < 0x1_0000 && b < 0x1_0000 && Feed(a, data) == Feed(b, data)
    ensures a == b
    decreases |data|
  {
    if data != [] {
      var n := |data| - 1;
      var x, y, w := Feed(a, data[..n]), Feed(b, data[..n]), data[n];
      FeedBound(a, data[..n]);
      FeedBound(b, data[..n]);
      Pow2Values();
      XorBound(x, w, 16);
      XorBound(y, w, 16);
      ShiftsInjective(Xor(x, w), Xor(y, w), 8);
      XorCancels(x, w);
      XorCancels(y, w);
      FeedInjective(a, b, data[..n]);
    }
  }

  // ---- Bit by bit ------------------------------------------------------------

  type bit = x: int | 0 <= x < 2

  /** The n low bits of x, least significant first: the order in which the register takes them in. */
  function BitsOf(x: nat, n: nat): (s: seq<bit>)
    ensures |s| == n
  {
    if n == 0 then [] else [x % 2] + BitsOf(x / 2, n - 1)
  }

  function Num(s: seq<bit>): nat { if s == [] then 0 else s[0] + 2 * Num(s[1..]) }

  function DataBits(data: seq<byte>): (s: seq<bit>)
    ensures |s| == 8 * |data|
  {
    if data == [] then [] else DataBits(data[..|data| - 1]) + BitsOf(data[|data| - 1], 8)
  }

  function FeedBits(c: nat, s: seq<bit>): nat
    decreases |s|
  {
    if s == [] then c else FeedBits(Shift(Xor(c, s[0])), s[1..])
  }

  lemma {:induction false} ShiftsFront(c: nat, n: nat)
    requires n > 0
    ensures Shifts(c, n) == Shifts(Shift(c), n - 1)
  {
    if n > 1 { ShiftsFront(c, n - 1); }
  }

  lemma SplitLow(x: nat)
    ensures Xor(x % 2, 2 * (x / 2)) == x && Shift(2 * (x / 2)) == x / 2
  {
    XorZero(x / 2);
  }

  /** Shifting a number in is feeding its bits, lowest first. */
  lemma {:induction false} ShiftsAreBits(c: nat, x: nat, n: nat)
    requires x < Pow2(n)
    ensures Shifts(Xor(c, x), n) == FeedBits(c, BitsOf(x, n))
    decreases n
  {
    hide Xor, Shift;
    if n == 0 {
      XorZero(c);
    } else {
      var low, high := x % 2, x / 2;
      SplitLow(x);
      XorAssociates(c, low, 2 * high);
      ShiftsFront(Xor(c, x), n);
      ShiftLinear(Xor(c, low), 2 * high);
      ShiftsAreBits(Shift(Xor(c, low)), high, n - 1);
      assert BitsOf(x, n)[1..] == BitsOf(high, n - 1);
    }
  }

  lemma {:induction false} FeedBitsConcat(c: nat, s: seq<bit>, t: seq<bit>)
    ensures FeedBits(c, s + t) == FeedBits(FeedBits(c, s), t)
    decreases |s|
  {
    hide Xor, Shift;
    if s == [] {
      assert s + t == t;
    } else {
      assert (s + t)[1..] == s[1..] + t;
      FeedBitsConcat(Shift(Xor(c, s[0])), s[1..], t);
    }
  }

  lemma {:induction false} FeedIsBits(c: nat, data: seq<byte>)
    ensures Feed(c, data) == FeedBits(c, DataBits(data))
    decreases |data|
  {
    hide Xor, BitsOf;
    if data != [] {
      var init, b := data[..|data| - 1], data[|data| - 1];
      FeedIsBits(c, init);
      Pow2Values();
      ShiftsAreBits(Feed(c, init), b, 8);
      FeedBitsConcat(c, DataBits(init), BitsOf(b, 8));
    }
  }

  lemma {:induction false} NumBound(s: seq<bit>)
    ensures Num(s) < Pow2(|s|)
  {
    if s != [] { NumBound(s[1..]); }
  }

  lemma {:induction false} BitsOfNum(s: seq<bit>)
    ensures BitsOf(Num(s), |s|) == s
  {
    if s != [] {
      BitsOfNum(s[1..]);
      assert s == [s[0]] + s[1..];
    }
  }

  lemma {:induction false} NumOfBits(x: nat, n: nat)
    requires x < Pow2(n)
    ensures Num(BitsOf(x, n)) == x
  {
    if n > 0 {
      NumOfBits(x / 2, n - 1);
      assert BitsOf(x, n)[1..] == BitsOf(x / 2, n - 1);
    }
  }

  lemma {:induction false} FeedBitsBound(c: nat, s: seq<bit>)
    requires c < 0x1_0000
    ensures FeedBits(c, s) < 0x1_0000
    decreases |s|
  {
    if s != [] {
      Pow2Values();
      XorBound(c, s[0], 16);
      ShiftsBound(Xor(c, s[0]), 1);
      assert Shifts(Xor(c, s[0]), 0) == Xor(c, s[0]);
      FeedBitsBound(Shift(Xor(c, s[0])), s[1..]);
    }
  }

  /** Feeding the same bits never merges two distinct registers. */
  lemma {:induction false} FeedBitsInjective(a: nat, b: nat, s: seq<bit>)
    requires a < 0x1_0000 && b < 0x1_0000 && FeedBits(a, s) == FeedBits(b, s)
    ensures a == b
    decreases |s|
  {
    hide Xor, Shift;
    if s != [] {
      var x, y := Xor(a, s[0]), Xor(b, s[0]);
      Pow2Values();
      XorBound(a, s[0], 16);
      XorBound(b, s[0], 16);
      assert Shifts(x, 0) == x && Shifts(y, 0) == y;
      ShiftsBound(x, 1);
      ShiftsBound(y, 1);
      FeedBitsInjective(Shift(x), Shift(y), s[1..]);
      ShiftsInjective(x, y, 1);
      XorCancels(a, s[0]);
      XorCancels(b, s[0]);
    }
  }

  /** From one register, two bit strings of at most sixteen bits that end in the same register are the same. */
  lemma ShortInjective(c: nat, u: seq<bit>, v: seq<bit>)
    requires c < 0x1_0000 && |u| == |v| <= 16 && FeedBits(c, u) == FeedBits(c, v)
    ensures u == v
  {
    hide Xor, FeedBits, Num, BitsOf;
    var n, x, y := |u|, Num(u), Num(v);
    NumBound(u);
    NumBound(v);
    BitsOfNum(u);
    BitsOfNum(v);
    ShiftsAreBits(c, x, n);
    ShiftsAreBits(c, y, n);
    Pow2Below(n, 16);
    Pow2Values();
    XorBound(c, x, 16);
    XorBound(c, y, 16);
    ShiftsInjective(Xor(c, x), Xor(c, y), n);
    XorCommutes(c, x);
    XorCommutes(c, y);
    XorCancels(x, c);
    XorCancels(y, c);
  }

  // ---- Bursts --------------------------------------------------------------

  /** Bit j of the data, counting from the lowest bit of the first byte. */
  function BitAt(d: seq<byte>, j: nat): bit
    requires j < 8 * |d|
  {
    BitsOf(d[j / 8], 8)[j % 8]
  }

  /** The two agree at every bit except possibly at sixteen consecutive ones, from p on. */
  predicate DifferInBurst(d: seq<byte>, e: seq<byte>, p: nat) {
    |d| == |e| && forall j :: 0 <= j < 8 * |d| && !(p <= j < p + 16) ==> BitAt(d, j) == BitAt(e, j)
  }

  lemma {:induction false} DataBitsAt(d: seq<byte>, j: nat)
    requires j < 8 * |d|
    ensures DataBits(d)[j] == BitAt(d, j)
    decreases |d|
  {
    hide BitsOf;
    var n := |d| - 1;
    if j < 8 * n { DataBitsAt(d[..n], j); }
  }

  /** Between the same bits, two stretches of at most sixteen bits that lead to the same register are the same. */
  lemma StretchDetected(pre: seq<bit>, u: seq<bit>, v: seq<bit>, post: seq<bit>)
    requires |u| == |v| <= 16 && FeedBits(0, pre + (u + post)) == FeedBits(0, pre + (v + post))
    ensures u == v
  {
    hide FeedBits;
    FeedBitsConcat(0, pre, u + post);
    FeedBitsConcat(0, pre, v + post);
    var c := FeedBits(0, pre);
    FeedBitsConcat(c, u, post);
    FeedBitsConcat(c, v, post);
    FeedBitsBound(0, pre);
    FeedBitsBound(c, u);
    FeedBitsBound(c, v);
    FeedBitsInjective(FeedBits(c, u), FeedBits(c, v), post);
    ShortInjective(c, u, v);
  }

  lemma Parts(x: seq<bit>, p: nat, q: nat)
    requires p <= q <= |x|
    ensures x == x[..p] + (x[p..q] + x[q..])
  {}

  lemma SameParts(x: seq<bit>, y: seq<bit>, i: nat, j: nat)
    requires |x| == |y| && i <= j <= |x| && forall k :: i <= k < j ==> x[k] == y[k]
    ensures x[i..j] == y[i..j]
  {}

  lemma BitBursts(x: seq<bit>, y: seq<bit>, p: nat)
    requires |x| == |y| && forall j :: 0 <= j < |x| && !(p <= j < p + 16) ==> x[j] == y[j]
    requires FeedBits(0, x) == FeedBits(0, y)
    ensures x == y
  {
    hide FeedBits;
    if p <= |x| {
      var n := |x|;
      var q := if p + 16 <= n then p + 16 else n;
      Parts(x, p, q);
      Parts(y, p, q);
      SameParts(x, y, 0, p);
      SameParts(x, y, q, n);
      assert x[..p] == x[0..p] == y[0..p] == y[..p] && x[q..] == x[q..n] == y[q..n] == y[q..];
      StretchDetected(x[..p], x[p..q], y[p..q], x[q..]);
    }
  }

  /** A byte is known by its bits. */
  lemma SameByte(a: byte, b: byte)
    requires BitsOf(a, 8) == BitsOf(b, 8)
    ensures a == b
  {
    hide BitsOf, Num;
    Pow2Values();
    NumOfBits(a, 8);
    NumOfBits(b, 8);
  }

  /** Bytes that a burst does not reach are the same. */
  lemma BurstMisses(d: seq<byte>, e: seq<byte>, p: nat, i: nat)
    requires DifferInBurst(d, e, p) && i < |d| && (8 * i + 8 <= p || p + 16 <= 8 * i)
    ensures d[i] == e[i]
  {
    hide BitsOf;
    var x, y := BitsOf(d[i], 8), BitsOf(e[i], 8);
    forall k | 0 <= k < 8
      ensures x[k] == y[k]
    {
      assert BitAt(d, 8 * i + k) == BitAt(e, 8 * i + k);
    }
    SameByte(d[i], e[i]);
  }

  lemma SameBits(d: seq<byte>, e: seq<byte>)
    requires DataBits(d) == DataBits(e)
    ensures d == e
  {
    hide DataBits, BitsOf;
    forall j: nat | j < 8 * |d|
      ensures BitAt(d, j) == BitAt(e, j)
    {
      DataBitsAt(d, j);
      DataBitsAt(e, j);
    }
    forall i | 0 <= i < |d|
      ensures d[i] == e[i]
    {
      BurstMisses(d, e, 8 * |d|, i);
    }
  }

  /** Every change confined to sixteen consecutive bits changes the CRC, whatever the length of the data. */
  lemma BurstDetected(d: seq<byte>, e: seq<byte>, p: nat)
    requires DifferInBurst(d, e, p)
    ensures Crc(d) == Crc(e) <==> d == e
  {
    hide Feed, FeedBits, DataBits, BitAt;
    if Crc(d) == Crc(e) {
      FeedIsBits(0, d);
      FeedIsBits(0, e);
      var x, y := DataBits(d), DataBits(e);
      forall j: nat | j < |x|
        ensures x[j] == BitAt(d, j) && y[j] == BitAt(e, j)
      {
        DataBitsAt(d, j);
        DataBitsAt(e, j);
      }
      BitBursts(x, y, p);
      SameBits(d, e);
    }
  }

  /** In particular, a change confined to two adjacent bytes is such a burst. */
  lemma PairIsBurst(d: seq<byte>, e: seq<byte>, i: nat)
    requires |d| == |e| && forall j :: 0 <= j < |d| && j != i && j != i + 1 ==> d[j] == e[j]
    ensures DifferInBurst(d, e, 8 * i)
  {
    hide BitsOf;
  }

  // ---- The remainder of a polynomial division ---------------------------------

  /** x^16 + x^15 + x^2 + 1, the coefficient of the highest power first. */
  const GENERATOR: seq<bit> := [1, 1, 0, 0, 0, 0, 0, 0, 0, 0, 0, 0, 0, 0, 1, 0, 1]

  /** Adding two polynomials over bits. */
  function Sum(s: seq<bit>, t: seq<bit>): (r: seq<bit>)
    requires |s| == |t|
    ensures |r| == |s| && forall i :: 0 <= i < |s| ==> r[i] == if s[i] == t[i] then 0 else 1
  {
    seq(|s|, i requires 0 <= i < |s| => if s[i] == t[i] then 0 else 1)
  }

  function Zeros(n: nat): (s: seq<bit>)
    ensures |s| == n && forall i :: 0 <= i < n ==> s[i] == 0
  {
    seq(n, _ => 0)
  }

  /** Long division: while the degree is sixteen or more, cancel the leading coefficient with the generator. */
  function Remainder(s: seq<bit>): (r: seq<bit>)
    requires |s| >= 16
    ensures |r| == 16
    decreases |s|
  {
    if |s| == 16 then s
    else if s[0] == 0 then Remainder(s[1..])
    else Remainder(Sum(s[..17], GENERATOR)[1..] + s[17..])
  }

  /** r added into the sixteen leading coefficients of s. */
  function Into(s: seq<bit>, r: seq<bit>): (t: seq<bit>)
    requires |s| >= 16 && |r| == 16
    ensures |t| == |s|
  {
    Sum(s[..16], r) + s[16..]
  }

  lemma {:induction false} BitsOfXor(a: nat, b: nat, n: nat)
    ensures BitsOf(Xor(a, b), n) == Sum(BitsOf(a, n), BitsOf(b, n))
    decreases n
  {
    if n > 0 {
      hide Xor;
      XorHalves(a, b);
      ParityCases(a, b);
      BitsOfXor(a / 2, b / 2, n - 1);
      var l, r := BitsOf(Xor(a, b), n), Sum(BitsOf(a, n), BitsOf(b, n));
      assert forall i :: 0 < i < n ==> l[i] == BitsOf(Xor(a / 2, b / 2), n - 1)[i - 1];
      assert forall i :: 0 < i < n ==> r[i] == Sum(BitsOf(a / 2, n - 1), BitsOf(b / 2, n - 1))[i - 1];
    }
  }

  lemma {:induction false} BitsOfHalf(x: nat, n: nat)
    requires x < Pow2(n)
    ensures BitsOf(x / 2, n) == if n == 0 then [] else BitsOf(x, n)[1..] + [0]
    decreases n
  {
    if n > 0 {
      BitsOfHalf(x / 2, n - 1);
    }
  }

  lemma {:induction false} BitsShifted(x: nat, n: nat, k: nat)
    ensures BitsOf(x * Pow2(k), n + k) == Zeros(k) + BitsOf(x, n)
    decreases k
  {
    if k == 0 {
      assert Zeros(0) + BitsOf(x, n) == BitsOf(x, n);
    } else {
      BitsShifted(x, n, k - 1);
      assert x * Pow2(k) == 2 * (x * Pow2(k - 1));
      assert Zeros(k) == [0] + Zeros(k - 1);
    }
  }

  lemma PolyDigits()
    ensures POLY == 1 + 2 * (5 * Pow2(12)) && BitsOf(5, 3) == [1, 0, 1]
  {
    assert Pow2(12) == 0x1000;
    assert BitsOf(1, 1) == [1] && BitsOf(2, 2) == [0, 1];
  }

  lemma BitsOdd(x: nat, n: nat)
    ensures BitsOf(1 + 2 * x, n + 1) == [1] + BitsOf(x, n)
  {}

  lemma GeneratorParts()
    ensures GENERATOR[1..] == [1] + (Zeros(12) + [1, 0, 1])
  {
    var z := Zeros(12);
    assert z == [0, 0, 0, 0, 0, 0, 0, 0, 0, 0, 0, 0];
  }

  /** The polynomial that crc16.ts writes as 0xa001 is the generator without its leading term. */
  lemma PolyBits()
    ensures BitsOf(POLY, 16) == GENERATOR[1..]
  {
    hide BitsOf, Pow2, Zeros;
    PolyDigits();
    BitsShifted(5, 3, 12);
    BitsOdd(5 * Pow2(12), 15);
    GeneratorParts();
  }

  lemma IntoTail(b: bit, rest: seq<bit>, r: seq<bit>)
    requires |rest| >= 16 && |r| == 16
    ensures Into([b] + rest, r)[0] == (if b == r[0] then 0 else 1)
    ensures Into([b] + rest, r)[1..] == Into(rest, r[1..] + [0])
  {
    var l, t := Into([b] + rest, r)[1..], Into(rest, r[1..] + [0]);
    forall i | 0 <= i < |t|
      ensures l[i] == t[i]
    {
      if i < 15 {
        assert ([b] + rest)[i + 1] == rest[i] && (r[1..] + [0])[i] == r[i + 1];
      }
    }
  }

  lemma SumTail(t: seq<bit>, g: seq<bit>)
    requires |t| >= 17 && |g| == 17
    ensures Sum(t[..17], g)[1..] + t[17..] == Into(t[1..], g[1..])
  {
    var l, r := Sum(t[..17], g)[1..] + t[17..], Into(t[1..], g[1..]);
    forall i | 0 <= i < |r|
      ensures l[i] == r[i]
    {}
  }

  lemma IntoTwice(s: seq<bit>, a: seq<bit>, b: seq<bit>)
    requires |s| >= 16 && |a| == |b| == 16
    ensures Into(Into(s, a), b) == Into(s, Sum(a, b))
  {
    var l, r := Into(Into(s, a), b), Into(s, Sum(a, b));
    forall i | 0 <= i < |r|
      ensures l[i] == r[i]
    {}
  }

  lemma ShiftOne(c: nat, b: bit)
    requires c < 0x1_0000
    ensures Shift(Xor(c, b)) < 0x1_0000
    ensures BitsOf(c, 16)[0] == c % 2
    ensures b == c % 2 ==> Shift(Xor(c, b)) == c / 2
    ensures b != c % 2 ==> Shift(Xor(c, b)) == Xor(c / 2, POLY)
  {
    hide Xor;
    Pow2Values();
    XorBound(c, b, 16);
    assert Shifts(Xor(c, b), 0) == Xor(c, b);
    ShiftsBound(Xor(c, b), 1);
    XorHalves(c, b);
    XorZero(c / 2);
  }

  /** One step of the division, on a dividend with the register added into its leading coefficients. */
  lemma DivisionStep(c: nat, b: bit, rest: seq<bit>)
    requires c < 0x1_0000 && |rest| >= 16
    ensures Shift(Xor(c, b)) < 0x1_0000
    ensures Remainder(Into([b] + rest, BitsOf(c, 16))) == Remainder(Into(rest, BitsOf(Shift(Xor(c, b)), 16)))
  {
    hide Shift, Xor, BitsOf, Into, Remainder, Sum;
    var r := BitsOf(c, 16);
    var t := Into([b] + rest, r);
    var half := r[1..] + [0];
    ShiftOne(c, b);
    Pow2Values();
    BitsOfHalf(c, 16);
    IntoTail(b, rest, r);
    RemainderStep(t);
    if b != c % 2 {
      PolyBits();
      BitsOfXor(c / 2, POLY, 16);
      SumTail(t, GENERATOR);
      IntoTwice(rest, half, GENERATOR[1..]);
    }
  }

  lemma RemainderStep(t: seq<bit>)
    requires |t| > 16
    ensures Remainder(t) == if t[0] == 0 then Remainder(t[1..]) else Remainder(Sum(t[..17], GENERATOR)[1..] + t[17..])
  {}

  lemma {:induction false} FeedDivides(c: nat, s: seq<bit>)
    requires c < 0x1_0000
    ensures Remainder(Into(s + Zeros(16), BitsOf(c, 16))) == BitsOf(FeedBits(c, s), 16)
    decreases |s|
  {
    hide Xor, Shift, BitsOf;
    if s == [] {
      var t := Into(s + Zeros(16), BitsOf(c, 16));
      assert forall i :: 0 <= i < 16 ==> t[i] == BitsOf(c, 16)[i];
      assert t == BitsOf(c, 16);
    } else {
      hide Remainder, Into;
      DivisionStep(c, s[0], s[1..] + Zeros(16));
      assert s + Zeros(16) == [s[0]] + (s[1..] + Zeros(16));
      FeedDivides(Shift(Xor(c, s[0])), s[1..]);
    }
  }

  /**
    CRC-16/IBM: the data bits, lowest of each byte first, times x^16, modulo x^16 + x^15 + x^2 + 1; the bits of the
    result in the order the register shifts them out, highest power first.
   */
  lemma CrcIsRemainder(data: seq<byte>)
    ensures BitsOf(Crc(data), 16) == Remainder(DataBits(data) + Zeros(16))
  {
    hide Remainder, FeedBits, Feed, DataBits, BitsOf, Into;
    FeedIsBits(0, data);
    FeedDivides(0, DataBits(data));
    ZeroBits(16);
    IntoNothing(DataBits(data) + Zeros(16));
  }

  lemma IntoNothing(s: seq<bit>)
    requires |s| >= 16
    ensures Into(s, Zeros(16)) == s
  {
    var t := Into(s, Zeros(16));
    assert forall i :: 0 <= i < |s| ==> t[i] == s[i];
  }

  lemma {:induction false} ZeroBits(n: nat)
    ensures BitsOf(0, n) == Zeros(n)
  {
    if n > 0 {
      ZeroBits(n - 1);
      assert Zeros(n) == [0] + Zeros(n - 1);
    }
  }

  // ---- Parity --------------------------------------------------------------

  /** Whether the number of one bits is odd. */
  function Parity(c: nat): bool {
    c > 0 && ((c % 2 == 1) != Parity(c / 2))
  }

  function DataParity(data: seq<byte>): bool
    decreases |data|
  {
    data != [] && (DataParity(data[..|data| - 1]) != Parity(data[|data| - 1]))
  }

  lemma ParityStep(c: nat)
    ensures Parity(c) == ((c % 2 == 1) != Parity(c / 2))
  {}

  lemma {:induction false} ParityOfXor(a: nat, b: nat)
    ensures Parity(Xor(a, b)) <==> Parity(a) != Parity(b)
  {
    if a > 0 || b > 0 {
      hide Xor, Parity;
      ParityOfXor(a / 2, b / 2);
      XorHalves(a, b);
      ParityCases(a, b);
      ParityStep(a);
      ParityStep(b);
      ParityStep(Xor(a, b));
    }
  }

  lemma PolyIsOdd()
    ensures Parity(POLY)
  {
    assert !Parity(5);
    assert !Parity(20);
    assert !Parity(80);
    assert !Parity(320);
    assert !Parity(1280);
    assert !Parity(5120);
    assert !Parity(20480);
  }

  lemma ParityOfShift(c: nat)
    ensures Parity(Shift(c)) == Parity(c)
  {
    ParityOfXor(c / 2, POLY);
    PolyIsOdd();
  }

  lemma {:induction false} ParityOfShifts(c: nat, n: nat)
    ensures Parity(Shifts(c, n)) == Parity(c)
  {
    if n > 0 {
      ParityOfShifts(c, n - 1);
      ParityOfShift(Shifts(c, n - 1));
    }
  }

  /** The CRC carries the parity of the data, so any odd number of flipped bits is detected. */
  lemma {:induction false} CrcCarriesParity(data: seq<byte>)
    ensures Parity(Crc(data)) == DataParity(data)
    decreases |data|
  {
    if data != [] {
      var n := |data| - 1;
      CrcCarriesParity(data[..n]);
      ParityOfXor(Feed(0, data[..n]), data[n]);
      ParityOfShifts(Xor(Feed(0, data[..n]), data[n]), 8);
    }
  }
}
