/** DWARF variable-length integers (DWARF 2, section 7.6), read into 32 bits. */
module Leb128 {
  import opened Base

  function Pow2(n: nat): (p: nat)
    ensures p >= 1
  {
    if n == 0 then 1 else 2 * Pow2(n - 1)
  }

  /** Section 7.6: seven bits a byte, least significant first, the high bit set on all bytes but the last. */
  function EncodeU(v: nat): (s: seq<byte>)
    ensures |s| >= 1
  {
    if v < 0x80 then [v] else [v % 0x80 + 0x80] + EncodeU(v / 0x80)
  }

  /** The same in two's complement, ending once the sign bit of the last byte agrees with the value. */
  function EncodeS(v: int): (s: seq<byte>)
    ensures |s| >= 1
    decreases if v < 0 then -v else v
  {
    if -0x40 <= v < 0x40 then [v % 0x80] else [v % 0x80 + 0x80] + EncodeS(v / 0x80)
  }

  /** The decoding loop from a given shift and accumulator; the bit fields joined by the code's `|=` are disjoint. */
  function LoopU(s: seq<byte>, shift: nat, result: int): Option<(int, seq<byte>)>
    decreases |s|
  {
    if s == [] then None
    else
      var r := (result + s[0] % 0x80 * Pow2(shift)) % TWO32;
      if s[0] >= 0x80 then LoopU(s[1..], shift + 7, r) else Some((r, s[1..]))
  }

  /** The signed loop, whose last step extends the sign. */
  function LoopS(s: seq<byte>, shift: nat, result: int): Option<(int, seq<byte>)>
    decreases |s|
  {
    if s == [] then None
    else
      var r := (result + s[0] % 0x80 * Pow2(shift)) % TWO32;
      if s[0] >= 0x80 then LoopS(s[1..], shift + 7, r)
      else Some((if shift + 7 < 32 && s[0] >= 0x40 then (r - Pow2(shift + 7)) % TWO32 else r, s[1..]))
  }

  /** A 32-bit pattern read as a signed integer. */
  function Int32(u: int): int
    requires 0 <= u < TWO32
  {
    if u < 0x8000_0000 then u else u - TWO32
  }

  lemma Pow2Seven(n: nat)
    ensures Pow2(n + 7) == 0x80 * Pow2(n)
  {
    assert Pow2(n + 7) == 2 * Pow2(n + 6) == 4 * Pow2(n + 5) == 8 * Pow2(n + 4);
    assert Pow2(n + 4) == 2 * Pow2(n + 3) == 4 * Pow2(n + 2) == 8 * Pow2(n + 1);
  }

  lemma {:induction false} Pow2Multiple(n: nat)
    requires n >= 32
    ensures Pow2(n) % TWO32 == 0
  {
    if n == 32 {
      Pow2Seven(0);
      Pow2Seven(7);
      Pow2Seven(14);
      Pow2Seven(21);
      assert Pow2(32) == 16 * Pow2(28);
    } else {
      Pow2Multiple(n - 1);
    }
  }

  lemma ModAdd(a: int, b: int, m: int)
    requires m > 0
    ensures (a % m + b) % m == (a + b) % m
  {
    var q := a / m;
    assert a % m + b == a + b - q * m;
    SameMod(a + b, q, m);
  }

  lemma SameMod(x: int, q: int, m: int)
    requires m > 0
    ensures (x - q * m) % m == x % m
  {
    assert x - q * m == (x / m - q) * m + x % m;
    Split(x / m - q, x % m, m);
  }

  /** One byte of a longer encoding: the low seven bits now, the rest at the next shift. */
  lemma Digit(v: int, shift: nat, result: int)
    ensures ((result + v % 0x80 * Pow2(shift)) % TWO32 + v / 0x80 * Pow2(shift + 7)) % TWO32
            == (result + v * Pow2(shift)) % TWO32
  {
    var p, lo, hi := Pow2(shift), v % 0x80, v / 0x80;
    Pow2Seven(shift);
    ModAdd(result + lo * p, hi * Pow2(shift + 7), TWO32);
    assert hi * (0x80 * p) == (hi * 0x80) * p;
    assert lo * p + (hi * 0x80) * p == (lo + hi * 0x80) * p;
  }

  lemma LowBits(v: int)
    ensures (v % 0x80 + 0x80) % 0x80 == v % 0x80 && v % 0x80 % 0x80 == v % 0x80
  {
    Split(1, v % 0x80, 0x80);
  }

  lemma {:induction false} LoopUEncoded(v: nat, rest: seq<byte>, shift: nat, result: int)
    ensures LoopU(EncodeU(v) + rest, shift, result) == Some(((result + v * Pow2(shift)) % TWO32, rest))
    decreases v
  {
    hide Pow2;
    var s := EncodeU(v) + rest;
    LowBits(v);
    if v < 0x80 {
      assert s[1..] == rest;
    } else {
      assert s[1..] == EncodeU(v / 0x80) + rest;
      LoopUEncoded(v / 0x80, rest, shift + 7, (result + v % 0x80 * Pow2(shift)) % TWO32);
      Digit(v, shift, result);
    }
  }

  lemma {:induction false} LoopSEncoded(v: int, rest: seq<byte>, shift: nat, result: int)
    ensures LoopS(EncodeS(v) + rest, shift, result) == Some(((result + v * Pow2(shift)) % TWO32, rest))
    decreases if v < 0 then -v else v
  {
    hide Pow2;
    var s := EncodeS(v) + rest;
    LowBits(v);
    if -0x40 <= v < 0x40 {
      assert s[1..] == rest;
      SignExtend(v, shift, result);
    } else {
      assert s[1..] == EncodeS(v / 0x80) + rest;
      LoopSEncoded(v / 0x80, rest, shift + 7, (result + v % 0x80 * Pow2(shift)) % TWO32);
      Digit(v, shift, result);
    }
  }

  lemma SignExtend(v: int, shift: nat, result: int)
    requires -0x40 <= v < 0x40
    ensures var r := (result + v % 0x80 * Pow2(shift)) % TWO32;
            (if shift + 7 < 32 && v % 0x80 >= 0x40 then (r - Pow2(shift + 7)) % TWO32 else r)
            == (result + v * Pow2(shift)) % TWO32
  {
    hide Pow2;
    var p, q := Pow2(shift), Pow2(shift + 7);
    Pow2Seven(shift);
    if v < 0 {
      assert v % 0x80 == v + 0x80;
      assert (v + 0x80) * p == v * p + q;
      ModAdd(result + v * p + q, -q, TWO32);
      if shift + 7 >= 32 {
        Pow2Multiple(shift + 7);
        assert q == q / TWO32 * TWO32;
        SameMod(result + v * p + q, q / TWO32, TWO32);
      }
    }
  }

  /** read_uleb128: the value and the stream after it. */
  method ReadULEB(stream: seq<byte>) returns (result: int, p: seq<byte>)
    requires LoopU(stream, 0, 0).Some?
    ensures Some((result, p)) == LoopU(stream, 0, 0)
  {
    p := stream;
    result := 0;
    var shift: nat, b: byte := 0, 0x80;
    while b >= 0x80
      invariant b >= 0x80 ==> LoopU(p, shift, result) == LoopU(stream, 0, 0)
      invariant b < 0x80 ==> Some((result, p)) == LoopU(stream, 0, 0)
      decreases b >= 0x80, |p|
    {
      b := p[0];
      p := p[1..];
      result := (result + b % 0x80 * Pow2(shift)) % TWO32;
      shift := shift + 7;
    }
  }

  /** read_sleb128. */
  method ReadSLEB(stream: seq<byte>) returns (result: int, p: seq<byte>)
    requires LoopS(stream, 0, 0).Some?
    ensures var d := LoopS(stream, 0, 0).value; p == d.1 && 0 <= d.0 < TWO32 && result == Int32(d.0)
  {
    p := stream;
    result := 0;
    var shift: nat, b: byte := 0, 0x80;
    ghost var goal := LoopS(stream, 0, 0).value;
    while b >= 0x80
      invariant b >= 0x80 ==> LoopS(p, shift, result) == Some(goal)
      invariant b < 0x80 ==> shift >= 7 && 0 <= result < TWO32
      invariant b < 0x80 ==> goal == (if shift < 32 && b >= 0x40 then (result - Pow2(shift)) % TWO32 else result, p)
      decreases b >= 0x80, |p|
    {
      b := p[0];
      p := p[1..];
      result := (result + b % 0x80 * Pow2(shift)) % TWO32;
      shift := shift + 7;
    }
    if shift < 32 && b >= 0x40 {
      result := (result - Pow2(shift)) % TWO32;
    }
    result := Int32(result);
  }

  lemma Unshifted(v: int)
    ensures 0 + v * Pow2(0) == v
  {
  }

  /** Decoding inverts encoding for every unsigned 32-bit value. */
  lemma DecodeU(v: nat, rest: seq<byte>)
    requires v < TWO32
    ensures LoopU(EncodeU(v) + rest, 0, 0) == Some((v, rest))
  {
    hide LoopU, EncodeU, Pow2;
    Unshifted(v);
    LoopUEncoded(v, rest, 0, 0);
  }

  /** And for every signed one. */
  lemma DecodeS(v: int, rest: seq<byte>)
    requires -0x8000_0000 <= v < 0x8000_0000
    ensures LoopS(EncodeS(v) + rest, 0, 0) == Some((v % TWO32, rest)) && Int32(v % TWO32) == v
  {
    hide LoopS, EncodeS, Pow2;
    Unshifted(v);
    LoopSEncoded(v, rest, 0, 0);
    if v < 0 {
      SameMod(v, -1, TWO32);
    }
  }
}
