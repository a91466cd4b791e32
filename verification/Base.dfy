/** Byte strings and little-endian integers, shared by the other modules. */
module Base {

  datatype Option<+T> = None | Some(value: T)

  type byte = x: int | 0 <= x < 0x100

  const TWO16 := 0x1_0000
  const TWO32 := 0x1_0000_0000

  function Zeros(n: nat): (z: seq<byte>)
    ensures |z| == n
  {
    seq(n, _ => 0)
  }

  /** The unsigned 16-bit little-endian integer at the front of `s`. */
  function U16(s: seq<byte>): (v: int)
    requires |s| >= 2
    ensures 0 <= v < TWO16
  {
    var lo: int, hi: int := s[0], s[1];
    lo + 0x100 * hi
  }

  /** The unsigned 32-bit little-endian integer at the front of `s`. */
  function U32(s: seq<byte>): (v: int)
    requires |s| >= 4
    ensures 0 <= v < TWO32
  {
    U16(s) + TWO16 * U16(s[2..])
  }

  function Le16(v: int): (s: seq<byte>)
    requires 0 <= v < TWO16
    ensures |s| == 2 && U16(s) == v
  {
    [v % 0x100, v / 0x100]
  }

  function Le32(v: int): (s: seq<byte>)
    requires 0 <= v < TWO32
    ensures |s| == 4 && U32(s) == v
  {
    var s := Le16(v % TWO16) + Le16(v / TWO16);
    assert s[2..] == Le16(v / TWO16);
    s
  }

  lemma Le16OfU16(s: seq<byte>)
    requires |s| >= 2
    ensures Le16(U16(s)) == s[..2]
  {
    Split(s[1], s[0], 0x100);
  }

  /** A number written as `q * m + r` has quotient `q` and remainder `r`. */
  lemma Split(q: int, r: int, m: int)
    requires 0 <= r < m
    ensures (q * m + r) / m == q && (q * m + r) % m == r
  {
    var x := q * m + r;
    var d := x / m - q;
    assert d * m == r - x % m;
    assert d >= 1 ==> d * m >= m;
    assert d <= -1 ==> d * m <= -m;
  }
}
