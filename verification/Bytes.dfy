/** Byte strings, big-endian integers, and the result types shared by the codecs. */
module Bytes {

  type byte = x: int | 0 <= x < 256

  datatype Option<+T> = None | Some(value: T)

  /** Every way the protocol package throws: its own errors, and the RangeError of a read past the end. */
  datatype Error =
    | ShortRead
    | Codec16Unsupported
    | UnsupportedCodec
    | CountMismatch
    | FrameTooShort
    | BadPreamble
    | IncompleteData
    | CrcMismatch
    | NotCodec12
    | BadImeiLength
    | BadImeiDigits

  datatype Result<+T> = Ok(value: T) | Err(error: Error) {
    predicate IsFailure() { Err? }
    function PropagateFailure<U>(): Result<U> requires Err? { Err(error) }
    function Extract(): T requires Ok? { value }
  }

  /** A value read at some offset together with the offset after it, or a read past the end. */
  datatype Parsed<+T> = Short | Parsed(value: T, next: nat) {
    predicate IsFailure() { Short? }
    function PropagateFailure<U>(): Parsed<U> requires Short? { Short }
    function Extract(): (T, nat) requires Parsed? { (value, next) }
  }

  function Pow2(n: nat): (p: nat)
    ensures p > 0
  {
    if n == 0 then 1 else 2 * Pow2(n - 1)
  }

  lemma Pow2Values()
    ensures Pow2(5) == 32 && Pow2(7) == 0x80 && Pow2(8) == 0x100 && Pow2(15) == 0x8000 && Pow2(16) == 0x1_0000
    ensures Pow2(24) == 0x100_0000 && Pow2(32) == 0x1_0000_0000
  {}

  lemma {:induction false} Pow2Below(m: nat, n: nat)
    requires m <= n
    ensures Pow2(m) <= Pow2(n)
  {
    if m < n {
      Pow2Below(m, n - 1);
    }
  }

  function Pow256(w: nat): (p: nat)
    ensures p > 0
  {
    if w == 0 then 1 else 256 * Pow256(w - 1)
  }

  /** The w-byte big-endian form of v (its low w bytes). */
  function BE(v: nat, w: nat): (s: seq<byte>)
    ensures |s| == w
    decreases w
  {
    if w == 0 then [] else BE(v / 256, w - 1) + [v % 256]
  }

  /** The number a big-endian byte string denotes. */
  function Val(s: seq<byte>): nat {
    if s == [] then 0 else 256 * Val(s[..|s| - 1]) + s[|s| - 1]
  }

  lemma {:induction false} ValOfBE(v: nat, w: nat)
    requires v < Pow256(w)
    ensures Val(BE(v, w)) == v
  {
    if w > 0 {
      ValOfBE(v / 256, w - 1);
      assert BE(v, w)[..w - 1] == BE(v / 256, w - 1);
    }
  }

  lemma {:induction false} BEOfVal(s: seq<byte>)
    ensures Val(s) < Pow256(|s|)
    ensures BE(Val(s), |s|) == s
  {
    if s != [] {
      BEOfVal(s[..|s| - 1]);
      assert s == s[..|s| - 1] + [s[|s| - 1]];
    }
  }

  lemma Pow256Values()
    ensures Pow256(1) == 0x100
    ensures Pow256(2) == 0x1_0000
    ensures Pow256(4) == 0x1_0000_0000
    ensures Pow256(8) == 0x1_0000_0000_0000_0000
  {}

  /** Two's complement, as Buffer.readIntBE reads a w-byte field. */
  function Signed(v: nat, w: nat): int {
    if 2 * v >= Pow256(w) then v - Pow256(w) else v
  }

  function Unsigned(v: int, w: nat): (u: nat)
    requires InSigned(v, w)
    ensures u < Pow256(w) && Signed(u, w) == v
  {
    if v < 0 then v + Pow256(w) else v
  }

  predicate InSigned(v: int, w: nat) {
    -(Pow256(w) as int) <= 2 * v < Pow256(w)
  }

  /** bs stands in data at offset off. */
  predicate At(data: seq<byte>, off: nat, bs: seq<byte>) {
    off + |bs| <= |data| && data[off..off + |bs|] == bs
  }

  lemma AtInside(data: seq<byte>, off: nat, bs: seq<byte>)
    requires At(data, off, bs)
    ensures off + |bs| <= |data|
  {}

  lemma AtConcat(data: seq<byte>, off: nat, a: seq<byte>, b: seq<byte>)
    ensures At(data, off, a + b) <==> At(data, off, a) && At(data, off + |a|, b)
  {
    if off + |a| + |b| <= |data| {
      var d := data[off..off + |a| + |b|];
      assert d[..|a|] == data[off..off + |a|];
      assert d[|a|..] == data[off + |a|..off + |a| + |b|];
      assert d == d[..|a|] + d[|a|..];
    }
  }

  /** Buffer.readUIntBE: throws when the field is not wholly inside the buffer. */
  function ReadUint(data: seq<byte>, off: nat, w: nat): Parsed<nat> {
    if off + w <= |data| then Parsed(Val(data[off..off + w]), off + w) else Short
  }

  lemma ReadUintIff(data: seq<byte>, off: nat, w: nat, v: nat, next: nat)
    ensures ReadUint(data, off, w) == Parsed(v, next)
       <==> v < Pow256(w) && At(data, off, BE(v, w)) && next == off + w
  {
    hide Val, BE, Pow256;
    if off + w <= |data| {
      var f := data[off..off + w];
      BEOfVal(f);
      if v < Pow256(w) && f == BE(v, w) {
        ValOfBE(v, w);
      }
    }
  }
}
