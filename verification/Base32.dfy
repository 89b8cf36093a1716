/**
  Base32 of the MFA secret (totp.ts). Both loops keep a 32-bit accumulator that is shifted left without
  ever being masked, so it overflows; only its low bits are ever read.
 */
module Base32 {
  import opened Bytes

  const ALPHABET := "ABCDEFGHIJKLMNOPQRSTUVWXYZ234567"

  /** The alphabet of section 6 of RFC 4648: A to Z, then 2 to 7. */
  function Letter(q: quintet): char {
    if q < 26 then ('A' as int + q) as char else ('2' as int + (q - 26)) as char
  }

  lemma LettersSpellAlphabet(q: quintet)
    ensures ALPHABET[q] == Letter(q)
    ensures "ABCDEFGHIJKLMNOPQRSTUVWXYZ234567"[q] == Letter(q)
    ensures Letter(q) as int == if q < 26 then 65 + q else 50 + (q - 26)
  {}

  const WORD := 0x1_0000_0000

  type bit = x: int | 0 <= x < 2
  type quintet = x: int | 0 <= x < 32

  // ---- The specification, on bit strings ----------------------------------------------

  /** The n low bits of v, most significant first. */
  function LowBits(v: nat, n: nat): (s: seq<bit>)
    ensures |s| == n
  {
    if n == 0 then [] else LowBits(v / 2, n - 1) + [v % 2]
  }

  function Num(s: seq<bit>): nat {
    if s == [] then 0 else 2 * Num(s[..|s| - 1]) + s[|s| - 1]
  }

  function ByteBits(bs: seq<byte>): (s: seq<bit>)
    ensures |s| == 8 * |bs|
  {
    if bs == [] then [] else ByteBits(bs[..|bs| - 1]) + LowBits(bs[|bs| - 1], 8)
  }

  function QuintetBits(qs: seq<quintet>): (s: seq<bit>)
    ensures |s| == 5 * |qs|
  {
    if qs == [] then [] else QuintetBits(qs[..|qs| - 1]) + LowBits(qs[|qs| - 1], 5)
  }

  function Zeros(n: nat): (s: seq<bit>)
    ensures |s| == n
  {
    if n == 0 then [] else Zeros(n - 1) + [0]
  }

  /** Section 6 of RFC 4648: groups of five bits, the last one padded on the right with zero bits. */
  function Quintets(s: seq<bit>): seq<quintet>
    decreases |s|
  {
    if s == [] then []
    else if |s| < 5 then [Group(s + Zeros(5 - |s|))]
    else [Group(s[..5])] + Quintets(s[5..])
  }

  function Group(s: seq<bit>): quintet
    requires |s| == 5
  {
    NumBound(s);
    Pow2Values();
    Num(s)
  }

  /** The whole bytes of a bit string; a remainder of less than eight bits is dropped. */
  function Octets(s: seq<bit>): seq<byte>
    decreases |s|
  {
    if |s| < 8 then [] else [Octet(s[..8])] + Octets(s[8..])
  }

  function Octet(s: seq<bit>): byte
    requires |s| == 8
  {
    NumBound(s);
    Pow2Values();
    Num(s)
  }

  function Spell(qs: seq<quintet>): (t: string)
    ensures |t| == |qs| && forall i :: 0 <= i < |qs| ==> t[i] == Letter(qs[i])
  {
    seq(|qs|, i requires 0 <= i < |qs| => Letter(qs[i]))
  }

  function Encode(bs: seq<byte>): string { Spell(Quintets(ByteBits(bs))) }

  /** The quintet a letter stands for, or None for a character outside the alphabet. */
  function IndexOf(c: char): (q: Option<quintet>) {
    if 'A' <= c <= 'Z' then Some(c as int - 'A' as int)
    else if '2' <= c <= '7' then Some(c as int - '2' as int + 26)
    else None
  }

  /** The symbols of a string, skipping every character outside the alphabet. */
  function Symbols(t: string): seq<quintet> {
    if t == "" then [] else
      var init := Symbols(t[..|t| - 1]);
      match IndexOf(t[|t| - 1]) case None => init case Some(q) => init + [q]
  }

  /**
    toUpperCase, up to characters that decoding skips: the Latin letters, and every other character whose upper case in
    the Unicode character database contains one.
   */
  function UpperChar(c: char): string {
    if 'a' <= c <= 'z' then [c - 32 as char] else
      match c
      case '\U{131}' => "I"
      case '\U{17f}' => "S"
      case '\U{df}' => "SS"
      case '\U{149}' => "\U{2bc}N"
      case '\U{1f0}' => "J\U{30c}"
      case '\U{1e96}' => "H\U{331}"
      case '\U{1e97}' => "T\U{308}"
      case '\U{1e98}' => "W\U{30a}"
      case '\U{1e99}' => "Y\U{30a}"
      case '\U{1e9a}' => "A\U{2be}"
      case '\U{fb00}' => "FF"
      case '\U{fb01}' => "FI"
      case '\U{fb02}' => "FL"
      case '\U{fb03}' => "FFI"
      case '\U{fb04}' => "FFL"
      case '\U{fb05}' => "ST"
      case '\U{fb06}' => "ST"
      case _ => [c]
  }

  function Upper(t: string): string {
    if t == "" then "" else Upper(t[..|t| - 1]) + UpperChar(t[|t| - 1])
  }

  function Decode(t: string): seq<byte> { Octets(QuintetBits(Symbols(Upper(t)))) }

  // ---- Bit-string facts -----------------------------------------------------------------

  /** The bits of a number, most significant first: each is a binary digit of it. */
  lemma LowBitsAre(v: nat, n: nat)
    ensures n > 0 ==> LowBits(v, n)[n - 1] == v % 2 && LowBits(v, n)[..n - 1] == LowBits(v / 2, n - 1)
  {
    if n > 0 { assert LowBits(v, n) == LowBits(v / 2, n - 1) + [v % 2]; }
  }

  lemma {:induction false} NumBound(s: seq<bit>)
    ensures Num(s) < Pow2(|s|)
  {
    if s != [] {
      NumBound(s[..|s| - 1]);
    }
  }

  lemma {:induction false} BitsOfNum(s: seq<bit>)
    ensures LowBits(Num(s), |s|) == s
  {
    if s != [] {
      BitsOfNum(s[..|s| - 1]);
      assert s == s[..|s| - 1] + [s[|s| - 1]];
    }
  }

  lemma {:induction false} NumOfBits(v: nat, n: nat)
    requires v < Pow2(n)
    ensures Num(LowBits(v, n)) == v
  {
    if n > 0 {
      NumOfBits(v / 2, n - 1);
      assert LowBits(v, n)[..n - 1] == LowBits(v / 2, n - 1);
    }
  }

  /** The low n bits are blind to multiples of 2^m with m at least n: overflow is invisible. */
  lemma {:induction false} LowBitsCongruent(u: nat, v: nat, n: nat, m: nat, c: nat)
    requires n <= m && u == v + c * Pow2(m)
    ensures LowBits(u, n) == LowBits(v, n)
  {
    if n > 0 {
      var t := c * Pow2(m - 1);
      assert c * Pow2(m) == 2 * t;
      assert u / 2 == v / 2 + t && u % 2 == v % 2;
      LowBitsCongruent(u / 2, v / 2, n - 1, m - 1, c);
    }
  }

  /** value >>> k */
  function Shr(value: nat, k: nat): nat {
    if k == 0 then value else Shr(value / 2, k - 1)
  }

  lemma {:induction false} LowBitsSplit(v: nat, a: nat, b: nat)
    ensures LowBits(v, a + b) == LowBits(Shr(v, b), a) + LowBits(v, b)
    decreases b
  {
    if b > 0 {
      LowBitsSplit(v / 2, a, b - 1);
    }
  }

  lemma {:induction false} LowBitsAppend(v: nat, n: nat, x: nat, k: nat)
    requires x < Pow2(k)
    ensures LowBits(v * Pow2(k) + x, n + k) == LowBits(v, n) + LowBits(x, k)
    decreases k
  {
    if k > 0 {
      var t := v * Pow2(k - 1);
      assert v * Pow2(k) == 2 * t;
      LowBitsAppend(v, n, x / 2, k - 1);
      assert (2 * t + x) / 2 == t + x / 2 && (2 * t + x) % 2 == x % 2;
    }
  }

  lemma {:induction false} LowBitsOfZero(k: nat)
    ensures LowBits(0, k) == Zeros(k)
  {
    if k > 0 {
      LowBitsOfZero(k - 1);
    }
  }

  lemma QuintetBitsSnoc(qs: seq<quintet>, q: quintet)
    ensures QuintetBits(qs + [q]) == QuintetBits(qs) + LowBits(q, 5)
  {}

  lemma ByteBitsSnoc(bs: seq<byte>, b: byte)
    ensures ByteBits(bs + [b]) == ByteBits(bs) + LowBits(b, 8)
  {}

  lemma {:induction false} QuintetBitsCons(q: quintet, qs: seq<quintet>)
    ensures QuintetBits([q] + qs) == LowBits(q, 5) + QuintetBits(qs)
    decreases |qs|
  {
    hide LowBits;
    if qs == [] {
      QuintetBitsSnoc([], q);
      assert [q] + qs == [] + [q];
    } else {
      var init, l := qs[..|qs| - 1], qs[|qs| - 1];
      QuintetBitsCons(q, init);
      assert [q] + qs == ([q] + init) + [l];
      QuintetBitsSnoc([q] + init, l);
    }
  }

  lemma {:induction false} ByteBitsCons(b: byte, bs: seq<byte>)
    ensures ByteBits([b] + bs) == LowBits(b, 8) + ByteBits(bs)
    decreases |bs|
  {
    hide LowBits;
    if bs == [] {
      ByteBitsSnoc([], b);
      assert [b] + bs == [] + [b];
    } else {
      var init, l := bs[..|bs| - 1], bs[|bs| - 1];
      ByteBitsCons(b, init);
      assert [b] + bs == ([b] + init) + [l];
      ByteBitsSnoc([b] + init, l);
    }
  }

  function Padding(n: nat): nat { (5 - n % 5) % 5 }

  /** The symbols of section 6 carry the input bits followed by the zero padding. */
  lemma {:induction false} QuintetsCarry(s: seq<bit>)
    ensures QuintetBits(Quintets(s)) == s + Zeros(Padding(|s|))
    decreases |s|
  {
    hide *;
    if |s| < 5 {
      LastQuintet(s);
    } else {
      QuintetsCarry(s[5..]);
      FirstQuintet(s);
      var z := Zeros(Padding(|s|));
      assert s[..5] + (s[5..] + z) == s + z;
    }
  }

  lemma PaddingOf(n: nat)
    ensures Padding(0) == 0 && Padding(n + 5) == Padding(n) && (0 < n < 5 ==> Padding(n) == 5 - n)
  {}

  lemma QuintetsCases(s: seq<bit>)
    ensures Quintets([]) == []
    ensures 0 < |s| < 5 ==> Quintets(s) == [Group(s + Zeros(5 - |s|))]
    ensures |s| >= 5 ==> Quintets(s) == [Group(s[..5])] + Quintets(s[5..])
  {}

  lemma GroupBits(s: seq<bit>)
    requires |s| == 5
    ensures LowBits(Group(s), 5) == s
  {
    BitsOfNum(s);
  }

  lemma LastQuintet(s: seq<bit>)
    requires |s| < 5
    ensures QuintetBits(Quintets(s)) == s + Zeros(Padding(|s|))
  {
    hide *;
    QuintetsCases(s);
    EmptyBits(0);
    ZerosNone();
    PaddingOf(|s|);
    if s != [] {
      var g := s + Zeros(5 - |s|);
      GroupBits(g);
      QuintetBitsSnoc([], Group(g));
      assert [Group(g)] == [] + [Group(g)];
    }
  }

  lemma FirstQuintet(s: seq<bit>)
    requires |s| >= 5
    ensures QuintetBits(Quintets(s)) == s[..5] + QuintetBits(Quintets(s[5..]))
    ensures Padding(|s[5..]|) == Padding(|s|)
  {
    hide *;
    QuintetsCases(s);
    PaddingOf(|s| - 5);
    GroupBits(s[..5]);
    QuintetBitsCons(Group(s[..5]), Quintets(s[5..]));
  }

  lemma ZerosNone()
    ensures Zeros(0) == []
  {}

  lemma {:induction false} QuintetBitsInjective(a: seq<quintet>, b: seq<quintet>)
    requires QuintetBits(a) == QuintetBits(b)
    ensures a == b
    decreases |a|
  {
    hide LowBits, Num;
    if a != [] {
      var n := |a| - 1;
      assert QuintetBits(a)[5 * n..] == LowBits(a[n], 5) && QuintetBits(b)[5 * n..] == LowBits(b[n], 5);
      assert QuintetBits(a)[..5 * n] == QuintetBits(a[..n]) && QuintetBits(b)[..5 * n] == QuintetBits(b[..n]);
      Pow2Values();
      NumOfBits(a[n], 5);
      NumOfBits(b[n], 5);
      QuintetBitsInjective(a[..n], b[..n]);
      assert a == a[..n] + [a[n]] && b == b[..n] + [b[n]];
    }
  }

  /** Octets inverts ByteBits, whatever incomplete byte follows. */
  lemma {:induction false} OctetsOfBytes(bs: seq<byte>, rest: seq<bit>)
    requires |rest| < 8
    ensures Octets(ByteBits(bs) + rest) == bs
    decreases |bs|
  {
    hide LowBits, Num;
    if bs != [] {
      var s := ByteBits(bs) + rest;
      assert bs == [bs[0]] + bs[1..];
      ByteBitsCons(bs[0], bs[1..]);
      assert s[..8] == LowBits(bs[0], 8);
      assert s[8..] == ByteBits(bs[1..]) + rest;
      Pow2Values();
      NumOfBits(bs[0], 8);
      OctetsOfBytes(bs[1..], rest);
    }
  }

  // ---- The encoder ------------------------------------------------------------------------

  /** value << k, on a 32-bit word; the source ORs the next symbol into the zero bits this makes. */
  function Shl(value: nat, k: nat): (r: nat)
    ensures r < WORD
  {
    (value * Pow2(k)) % WORD
  }

  lemma ShiftIn(value: nat, bits: nat, x: nat, k: nat)
    requires bits + k <= 32 && x < Pow2(k)
    ensures LowBits(Shl(value, k) + x, bits + k) == LowBits(value, bits) + LowBits(x, k)
  {
    hide LowBits, Pow2;
    Pow2Values();
    var w := value * Pow2(k);
    LowBitsCongruent(w + x, w % WORD + x, bits + k, 32, w / WORD);
    LowBitsAppend(value, bits, x, k);
  }

  lemma Masked(v: nat)
    ensures LowBits(v % 32, 5) == LowBits(v, 5)
    ensures LowBits(v % 256, 8) == LowBits(v, 8)
  {
    hide LowBits, Pow2;
    Pow2Values();
    LowBitsCongruent(v, v % 32, 5, 5, v / 32);
    LowBitsCongruent(v, v % 256, 8, 8, v / 256);
  }

  /** One left shift: the pending bits grow by the k bits of x. */
  lemma Push(done: seq<bit>, value: nat, bits: nat, x: nat, k: nat)
    requires bits + k <= 32 && x < Pow2(k)
    ensures done + LowBits(Shl(value, k) + x, bits + k) == (done + LowBits(value, bits)) + LowBits(x, k)
  {
    hide *;
    ShiftIn(value, bits, x, k);
  }

  /** One right shift: the k oldest of the pending bits are read off. */
  lemma Pop(done: seq<bit>, value: nat, bits: nat, k: nat)
    requires k <= bits
    ensures done + LowBits(value, bits) == (done + LowBits(Shr(value, bits - k), k)) + LowBits(value, bits - k)
  {
    hide *;
    LowBitsSplit(value, k, bits - k);
  }

  method Base32Encode(buf: seq<byte>) returns (out: string)
    ensures out == Encode(buf)
  {
    hide LowBits, Quintets, ByteBits, QuintetBits, Pow2, Shr, Shl, Letter, Spell, Zeros, Padding;
    var bits: nat, value: nat := 0, 0;
    out := "";
    ghost var qs: seq<quintet> := [];
    EmptyBits(value);
    Pow2Values();
    for i := 0 to |buf|
      invariant bits < 5 && out == Spell(qs)
      invariant QuintetBits(qs) + LowBits(value, bits) == ByteBits(buf[..i])
    {
      Push(QuintetBits(qs), value, bits, buf[i], 8);
      ByteBitsSnoc(buf[..i], buf[i]);
      assert buf[..i + 1] == buf[..i] + [buf[i]];
      value := Shl(value, 8) + buf[i];
      bits := bits + 8;
      while bits >= 5
        invariant bits <= 12 && out == Spell(qs)
        invariant QuintetBits(qs) + LowBits(value, bits) == ByteBits(buf[..i + 1])
      {
        var q: quintet := Shr(value, bits - 5) % 32;
        Pop(QuintetBits(qs), value, bits, 5);
        Masked(Shr(value, bits - 5));
        QuintetBitsSnoc(qs, q);
        SpellSnoc(qs, q);
        out, qs := out + [Letter(q)], qs + [q];
        bits := bits - 5;
      }
    }
    assert buf[..|buf|] == buf;
    if bits > 0 {
      var q: quintet := Shl(value, 5 - bits) % 32;
      Pow2Positive(5 - bits);
      Push(QuintetBits(qs), value, bits, 0, 5 - bits);
      Masked(Shl(value, 5 - bits));
      LowBitsOfZero(5 - bits);
      QuintetBitsSnoc(qs, q);
      SpellSnoc(qs, q);
      out, qs := out + [Letter(q)], qs + [q];
    } else {
      EmptyBits(value);
      ZerosNone();
    }
    QuintetsUnique(qs, ByteBits(buf), if bits > 0 then 5 - bits else 0);
  }

  lemma QuintetsUnique(qs: seq<quintet>, s: seq<bit>, k: nat)
    requires k < 5 && QuintetBits(qs) == s + Zeros(k)
    ensures qs == Quintets(s)
  {
    hide Quintets, QuintetBits, Zeros;
    QuintetsCarry(s);
    assert |s| + k == 5 * |qs|;
    QuintetBitsInjective(qs, Quintets(s));
  }

  lemma SpellSnoc(qs: seq<quintet>, q: quintet)
    ensures Spell(qs + [q]) == Spell(qs) + [Letter(q)]
  {}

  lemma Pow2Positive(k: nat)
    ensures 0 < Pow2(k)
  {}

  lemma EmptyBits(v: nat)
    ensures LowBits(v, 0) == [] && QuintetBits([]) == [] && ByteBits([]) == [] && Spell([]) == ""
  {}

  // ---- The decoder ------------------------------------------------------------------------

  /** The clean-up before decoding: trailing '=' and then white space are removed. */
  function StripPadding(t: string): string {
    if t != "" && t[|t| - 1] == '=' then StripPadding(t[..|t| - 1]) else t
  }

  predicate IsSpace(c: char) {
    c == ' ' || '\t' <= c <= '\r' || c == '\U{a0}' || c == '\U{1680}' || '\U{2000}' <= c <= '\U{200a}'
    || c == '\U{2028}' || c == '\U{2029}' || c == '\U{202f}' || c == '\U{205f}' || c == '\U{3000}' || c == '\U{feff}'
  }

  function WithoutSpaces(t: string): string {
    if t == "" then "" else
      WithoutSpaces(t[..|t| - 1]) + if IsSpace(t[|t| - 1]) then "" else [t[|t| - 1]]
  }

  lemma {:induction false} StripKeepsSymbols(t: string)
    ensures Symbols(StripPadding(t)) == Symbols(t)
  {
    if t != "" && t[|t| - 1] == '=' {
      StripKeepsSymbols(t[..|t| - 1]);
    }
  }

  lemma SymbolsSnoc(t: string, c: char)
    ensures Symbols(t + [c]) == match IndexOf(c) case None => Symbols(t) case Some(q) => Symbols(t) + [q]
  {}

  lemma {:induction false} SpacesKeepSymbols(t: string)
    ensures Symbols(WithoutSpaces(t)) == Symbols(t)
  {
    if t != "" {
      var init, c := t[..|t| - 1], t[|t| - 1];
      SpacesKeepSymbols(init);
      SymbolsSnoc(WithoutSpaces(init), c);
      if IsSpace(c) {
        assert WithoutSpaces(t) == WithoutSpaces(init);
      }
    }
  }

  lemma SymbolsStep(t: string, i: nat)
    requires i < |t|
    ensures IndexOf(t[i]) == None ==> Symbols(t[..i + 1]) == Symbols(t[..i])
    ensures IndexOf(t[i]).Some? ==> Symbols(t[..i + 1]) == Symbols(t[..i]) + [IndexOf(t[i]).value]
  {
    hide IndexOf, Symbols;
    assert t[..i + 1] == t[..i] + [t[i]];
    SymbolsSnoc(t[..i], t[i]);
  }

  method Base32Decode(str: string) returns (out: seq<byte>)
    ensures out == Decode(str)
  {
    hide LowBits, ByteBits, QuintetBits, Pow2, StripPadding, WithoutSpaces, Upper, Symbols, Octets, IndexOf, Shr, Shl;
    var clean := WithoutSpaces(StripPadding(Upper(str)));
    StripKeepsSymbols(Upper(str));
    SpacesKeepSymbols(StripPadding(Upper(str)));
    var bits: nat, value: nat := 0, 0;
    out := [];
    EmptyBits(value);
    NoSymbols();
    for i := 0 to |clean|
      invariant bits < 8
      invariant ByteBits(out) + LowBits(value, bits) == QuintetBits(Symbols(clean[..i]))
    {
      SymbolsStep(clean, i);
      var idx := IndexOf(clean[i]);
      if idx != None {
        Pow2Values();
        Push(ByteBits(out), value, bits, idx.value, 5);
        QuintetBitsSnoc(Symbols(clean[..i]), idx.value);
        value := Shl(value, 5) + idx.value;
        bits := bits + 5;
        if bits >= 8 {
          var b: byte := Shr(value, bits - 8) % 256;
          Pop(ByteBits(out), value, bits, 8);
          Masked(Shr(value, bits - 8));
          ByteBitsSnoc(out, b);
          out := out + [b];
          bits := bits - 8;
        }
      }
    }
    assert clean[..|clean|] == clean;
    OctetsOfBytes(out, LowBits(value, bits));
  }

  lemma NoSymbols()
    ensures Symbols("") == []
  {}

  // ---- The round trip ---------------------------------------------------------------------

  lemma {:induction false} SymbolsOfSpelling(qs: seq<quintet>)
    ensures Symbols(Upper(Spell(qs))) == qs
  {
    hide Letter, IndexOf, Symbols, UpperChar;
    if qs == [] {
      NoSymbols();
    } else {
      var init, q := qs[..|qs| - 1], qs[|qs| - 1];
      SymbolsOfSpelling(init);
      IndexOfLetter(q);
      assert Spell(qs)[..|init|] == Spell(init);
      assert Upper(Spell(qs)) == Upper(Spell(init)) + [Letter(q)];
      SymbolsSnoc(Upper(Spell(init)), Letter(q));
    }
  }

  lemma IndexOfLetter(q: quintet)
    ensures IndexOf(Letter(q)) == Some(q) && UpperChar(Letter(q)) == [Letter(q)]
  {}

  /** base32Decode inverts base32Encode on every byte string. */
  lemma RoundTrip(bs: seq<byte>)
    ensures Decode(Encode(bs)) == bs
  {
    hide LowBits, Quintets, ByteBits, QuintetBits, Octets, Symbols, Upper, Spell;
    var s := ByteBits(bs);
    SymbolsOfSpelling(Quintets(s));
    QuintetsCarry(s);
    OctetsOfBytes(bs, Zeros(Padding(|s|)));
  }
}
