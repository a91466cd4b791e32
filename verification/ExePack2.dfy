/** Page decompression for LX executables: the ExePack2 LZ77 scheme. */
module ExePack2 {
  import opened Base

  /** One record of the packed stream; `dist` counts back from the write position, `lead` bytes are copied first. */
  datatype Token =
    | Skip
    | Run(count: int, value: byte)
    | Literal(bytes: seq<byte>)
    | ShortMatch(bytes: seq<byte>, len: int, dist: int)
    | MidMatch(len: int, dist: int)
    | LongMatch(bytes: seq<byte>, len: int, dist: int)
  {
    predicate Valid() {
      match this
      case Skip => true
      case Run(count, _) => 1 <= count <= 255
      case Literal(bytes) => 1 <= |bytes| <= 63
      case ShortMatch(bytes, len, dist) => |bytes| <= 3 && 3 <= len <= 10 && 0 <= dist < 0x200
      case MidMatch(len, dist) => 3 <= len <= 6 && 0 <= dist < 0x1000
      case LongMatch(bytes, len, dist) => |bytes| <= 15 && 0 <= len <= 63 && 0 <= dist < 0x1000
    }

    /** The number of packed bytes. */
    function Width(): (n: nat)
      ensures n >= 1
    {
      match this
      case Skip => 2
      case Run(_, _) => 3
      case Literal(bytes) => |bytes| + 1
      case ShortMatch(bytes, _, _) => |bytes| + 2
      case MidMatch(_, _) => 2
      case LongMatch(bytes, _, _) => |bytes| + 3
    }

    /** The bit-packed form: fields fill each little-endian word from its low end, tag first. */
    function Packed(): (s: seq<byte>)
      requires Valid()
      ensures |s| == Width()
    {
      match this
      case Skip => [0, 0]
      case Run(count, value) => [0, count, value]
      case Literal(bytes) => [4 * |bytes|] + bytes
      case ShortMatch(bytes, len, dist) =>
        Le16(1 + 4 * |bytes| + 0x10 * (len - 3) + 0x80 * dist) + bytes
      case MidMatch(len, dist) =>
        Le16(2 + 4 * (len - 3) + 0x10 * dist)
      case LongMatch(bytes, len, dist) =>
        Le16(3 + 4 * |bytes| + 0x40 * len + 0x1000 * (dist % 0x10)) + [dist / 0x10] + bytes
    }

    /** The bytes a record spells out itself, before its match. */
    function Lead(): seq<byte>
      requires Valid()
    {
      match this
      case Skip => []
      case Run(count, value) => seq(count, _ => value)
      case Literal(bytes) => bytes
      case ShortMatch(bytes, _, _) => bytes
      case MidMatch(_, _) => []
      case LongMatch(bytes, _, _) => bytes
    }

    function CopyLen(): nat
      requires Valid()
    {
      if ShortMatch? || MidMatch? || LongMatch? then len else 0
    }

    function CopyDist(): nat
      requires Valid()
    {
      if ShortMatch? || MidMatch? || LongMatch? then dist else 0
    }

    function Size(): nat
      requires Valid()
    {
      |Lead()| + CopyLen()
    }

    /** The record may be applied after `n` bytes of output in a buffer of `cap` bytes. */
    predicate Fits(n: nat, cap: nat)
      requires Valid()
    {
      n + Size() <= cap && CopyDist() <= n + |Lead()|
    }

    /** A match that reads the buffer at its own write position. */
    predicate ReadsStale()
      requires Valid()
    {
      CopyDist() == 0 && CopyLen() > 0
    }
  }

  /**
   * LZ77 copy: extend `out` by `len` bytes, each the one `dist` back. Distance 0 reads the cell about to be written,
   * that is the prior content `mem` of the buffer.
   */
  function Copy(out: seq<byte>, dist: nat, len: nat, mem: seq<byte>): (r: seq<byte>)
    requires dist <= |out| && |out| + len <= |mem|
    ensures |r| == |out| + len && out <= r
    decreases len
  {
    if len == 0 then out
    else Copy(out + [if dist == 0 then mem[|out|] else out[|out| - dist]], dist, len - 1, mem)
  }

  function Apply(t: Token, out: seq<byte>, mem: seq<byte>): (r: seq<byte>)
    requires t.Valid() && t.Fits(|out|, |mem|)
    ensures |r| == |out| + t.Size() && out <= r
  {
    Copy(out + t.Lead(), t.CopyDist(), t.CopyLen(), mem)
  }

  predicate AllValid(ts: seq<Token>) {
    forall i :: 0 <= i < |ts| ==> ts[i].Valid()
  }

  function PackAll(ts: seq<Token>): seq<byte>
    requires AllValid(ts)
  {
    if ts == [] then [] else ts[0].Packed() + PackAll(ts[1..])
  }

  /** Every record fits when the list is applied after `n` bytes. */
  predicate AllFit(ts: seq<Token>, n: nat, cap: nat)
    requires AllValid(ts)
  {
    ts == [] || (ts[0].Fits(n, cap) && AllFit(ts[1..], n + ts[0].Size(), cap))
  }

  /** The LZ77 expansion of a record list. */
  function Expand(ts: seq<Token>, out: seq<byte>, mem: seq<byte>): (r: seq<byte>)
    requires AllValid(ts) && AllFit(ts, |out|, |mem|)
    ensures |out| <= |r| && out <= r && (|out| <= |mem| ==> |r| <= |mem|)
  {
    if ts == [] then out else Expand(ts[1..], Apply(ts[0], out, mem), mem)
  }

  /** Parse the record at the front of `s`. */
  function Read(s: seq<byte>): (r: Option<Token>)
    requires |s| > 0
    ensures r.Some? ==> r.value.Valid() && r.value.Width() <= |s|
  {
    var b1: int := s[0];
    if b1 == 0 then
      if |s| < 2 then None
      else if s[1] == 0 then Some(Skip)
      else if |s| < 3 then None
      else Some(Run(s[1], s[2]))
    else if b1 % 4 == 0 then
      if |s| < b1 / 4 + 1 then None else Some(Literal(s[1..b1 / 4 + 1]))
    else if |s| < 2 then None
    else if b1 % 4 == 1 then
      var n := (b1 / 4) % 4;
      if |s| < n + 2 then None else Some(ShortMatch(s[2..n + 2], (b1 / 0x10) % 8 + 3, U16(s) / 0x80))
    else if b1 % 4 == 2 then
      Some(MidMatch((b1 / 4) % 4 + 3, U16(s) / 0x10))
    else
      var n := (b1 / 4) % 0x10;
      if |s| < n + 3 then None
      else Some(LongMatch(s[3..n + 3], (U16(s) / 0x40) % 0x40, U16(s[1..]) / 0x10))
  }

  // The bit fields of the three match words survive packing and unpacking.

  lemma ShortBits(n: int, len: int, dist: int)
    requires 0 <= n <= 3 && 3 <= len <= 10 && 0 <= dist < 0x200
    ensures var w := 1 + 4 * n + 0x10 * (len - 3) + 0x80 * dist;
            var b := w % 0x100;
            && 0 <= w < TWO16 && w / 0x80 == dist
            && b % 4 == 1 && (b / 4) % 4 == n && (b / 0x10) % 8 == len - 3
  {
    var k, hi, lo := len - 3, dist / 2, dist % 2;
    Split(dist, 1 + 4 * n + 0x10 * k, 0x80);
    Split(hi, 1 + 4 * n + 0x10 * k + 0x80 * lo, 0x100);
    Split(n + 4 * k + 0x20 * lo, 1, 4);
    Split(k + 8 * lo, n, 4);
    Split(k + 8 * lo, 1 + 4 * n, 0x10);
    Split(lo, k, 8);
  }

  lemma LongBits(n: int, len: int, dist: int)
    requires 0 <= n <= 15 && 0 <= len <= 63 && 0 <= dist < 0x1000
    ensures var w := 3 + 4 * n + 0x40 * len + 0x1000 * (dist % 0x10);
            var b := w % 0x100;
            && 0 <= w < TWO16 && (w / 0x40) % 0x40 == len && (w / 0x100 + 0x100 * (dist / 0x10)) / 0x10 == dist
            && b % 4 == 3 && (b / 4) % 0x10 == n
  {
    var hi, lo, d := len / 4, len % 4, dist % 0x10;
    Split(len + 0x40 * d, 3 + 4 * n, 0x40);
    Split(d, len, 0x40);
    Split(hi + 0x10 * d, 3 + 4 * n + 0x40 * lo, 0x100);
    Split(d + 0x10 * (dist / 0x10), hi, 0x10);
    Split(n + 0x10 * lo, 3, 4);
    Split(lo, n, 0x10);
  }

  lemma ReadShort(t: Token, rest: seq<byte>)
    requires t.ShortMatch? && t.Valid()
    ensures Read(t.Packed() + rest) == Some(t)
  {
    var s, n := t.Packed() + rest, |t.bytes|;
    ShortBits(n, t.len, t.dist);
    assert U16(s) == U16(t.Packed());
    assert s[2..n + 2] == t.bytes;
  }

  lemma ReadMid(t: Token, rest: seq<byte>)
    requires t.MidMatch? && t.Valid()
    ensures Read(t.Packed() + rest) == Some(t)
  {
    MidFields(t.len - 3, t.dist);
    assert U16(t.Packed() + rest) == U16(t.Packed());
  }

  lemma ReadLong(t: Token, rest: seq<byte>)
    requires t.LongMatch? && t.Valid()
    ensures Read(t.Packed() + rest) == Some(t)
  {
    var s, n := t.Packed() + rest, |t.bytes|;
    LongBits(n, t.len, t.dist);
    assert U16(s) == 3 + 4 * n + 0x40 * t.len + 0x1000 * (t.dist % 0x10);
    assert s[2] == t.dist / 0x10;
    assert s[3..n + 3] == t.bytes;
  }

  /** Reading undoes packing, whatever follows the record. */
  lemma ReadPacked(t: Token, rest: seq<byte>)
    requires t.Valid()
    ensures Read(t.Packed() + rest) == Some(t)
  {
    match t {
      case Skip =>
      case Run(_, _) =>
      case Literal(bytes) =>
        assert (t.Packed() + rest)[1..|bytes| + 1] == bytes;
      case ShortMatch(_, _, _) => ReadShort(t, rest);
      case MidMatch(_, _) => ReadMid(t, rest);
      case LongMatch(_, _, _) => ReadLong(t, rest);
    }
  }

  // Conversely, the fields of a word determine it.

  lemma ShortWord(b: int, c: int)
    requires 0 <= b < 0x100 && 0 <= c < 0x100 && b % 4 == 1
    ensures var w := b + 0x100 * c;
            w == 1 + 4 * ((b / 4) % 4) + 0x10 * ((b / 0x10) % 8) + 0x80 * (w / 0x80) && w / 0x80 < 0x200
  {
    var n, k, lo := (b / 4) % 4, (b / 0x10) % 8, b / 0x80;
    assert b == 1 + 4 * n + 0x10 * k + 0x80 * lo;
    Split(lo + 2 * c, 1 + 4 * n + 0x10 * k, 0x80);
  }

  lemma MidWord(b: int, c: int)
    requires 0 <= b < 0x100 && 0 <= c < 0x100 && b % 4 == 2
    ensures var w := b + 0x100 * c;
            w == 2 + 4 * ((b / 4) % 4) + 0x10 * (w / 0x10) && w / 0x10 < 0x1000
  {
  }

  lemma LongWord(b: int, c: int, d: int)
    requires 0 <= b < 0x100 && 0 <= c < 0x100 && 0 <= d < 0x100 && b % 4 == 3
    ensures var w := b + 0x100 * c;
            var dist := (c + 0x100 * d) / 0x10;
            && w == 3 + 4 * ((b / 4) % 0x10) + 0x40 * ((w / 0x40) % 0x40) + 0x1000 * (dist % 0x10)
            && dist / 0x10 == d && dist < 0x1000
  {
    var n, lo := (b / 4) % 0x10, b / 0x40;
    assert b == 3 + 4 * n + 0x40 * lo;
    var chi, clo := c / 0x10, c % 0x10;
    Split(lo + 4 * c, 3 + 4 * n, 0x40);
    Split(chi, lo + 4 * clo, 0x40);
    Split(chi + 0x10 * d, clo, 0x10);
    Split(d, chi, 0x10);
  }

  lemma ShortPacked(b: byte, c: byte, bytes: seq<byte>)
    requires b % 4 == 1 && |bytes| == (b / 4) % 4
    ensures var t := ShortMatch(bytes, (b / 0x10) % 8 + 3, U16([b, c]) / 0x80);
            t.Valid() && t.Packed() == [b, c] + bytes
  {
    hide Le16;
    ShortWord(b, c);
    Le16OfU16([b, c]);
  }

  lemma ShortRead(s: seq<byte>)
    requires |s| >= 2 && s[0] % 4 == 1 && Read(s).Some?
    ensures Read(s).value.Packed() <= s
  {
    hide Read, Token.Packed;
    ReadShortFields(s);
    var n := (s[0] / 4) % 4;
    ShortPacked(s[0], s[1], s[2..n + 2]);
    assert s == [s[0], s[1]] + s[2..n + 2] + s[n + 2..];
  }

  lemma MidRead(s: seq<byte>)
    requires |s| >= 2 && s[0] % 4 == 2
    ensures Read(s).value.Packed() <= s
  {
    hide Le16;
    MidWord(s[0], s[1]);
    Le16OfU16(s);
    assert Read(s).value.Packed() == Le16(U16(s));
  }

  lemma LongPacked(b: byte, c: byte, d: byte, bytes: seq<byte>)
    requires b % 4 == 3 && |bytes| == (b / 4) % 0x10
    ensures var w, dist := U16([b, c]), U16([c, d]) / 0x10;
            var t := LongMatch(bytes, (w / 0x40) % 0x40, dist);
            t.Valid() && t.Packed() == [b, c, d] + bytes
  {
    hide Le16;
    LongWord(b, c, d);
    Le16OfU16([b, c]);
  }

  lemma LongRead(s: seq<byte>)
    requires |s| >= 2 && s[0] % 4 == 3 && Read(s).Some?
    ensures Read(s).value.Packed() <= s
  {
    hide Read, Token.Packed;
    ReadLongFields(s);
    var n := (s[0] / 4) % 0x10;
    LongPacked(s[0], s[1], s[2], s[3..n + 3]);
    assert s == [s[0], s[1], s[2]] + s[3..n + 3] + s[n + 3..];
  }

  /** Packing undoes reading: the record read is exactly the bytes in front. */
  lemma PackedRead(s: seq<byte>)
    requires |s| > 0 && Read(s).Some?
    ensures Read(s).value.Packed() <= s
  {
    if s[0] % 4 == 1 {
      ShortRead(s);
    } else if s[0] % 4 == 2 {
      MidRead(s);
    } else if s[0] % 4 == 3 {
      LongRead(s);
    } else {
      var p := Read(s).value.Packed();
      assert p == s[..|p|];
    }
  }

  /**
   * Reference decoder: parse and apply records until the source or the buffer is exhausted, then pad with zeros.
   * The first record is parsed even when the buffer has no room at all.
   */
  function Unpack(src: seq<byte>, out: seq<byte>, mem: seq<byte>): (r: Option<seq<byte>>)
    requires |out| <= |mem|
    ensures r.Some? ==> |r.value| == |mem|
    decreases |src|
  {
    if src == [] then Some(out + Zeros(|mem| - |out|))
    else
      match Read(src)
      case None => None
      case Some(t) =>
        if !t.Fits(|out|, |mem|) then None
        else
          var next := Apply(t, out, mem);
          if |next| == |mem| then Some(next) else Unpack(src[t.Width()..], next, mem)
  }

  lemma UnpackStep(src: seq<byte>, out: seq<byte>, mem: seq<byte>)
    requires src != [] && |out| <= |mem|
    ensures Unpack(src, out, mem) ==
            match Read(src)
            case None => None
            case Some(t) =>
              if !t.Fits(|out|, |mem|) then None
              else if |out| + t.Size() == |mem| then Some(Apply(t, out, mem))
              else Unpack(src[t.Width()..], Apply(t, out, mem), mem)
  {
    hide Read, Apply;
  }

  lemma UnpackDone(out: seq<byte>, mem: seq<byte>)
    requires |out| <= |mem|
    ensures Unpack([], out, mem) == Some(out + Zeros(|mem| - |out|))
  {
  }

  lemma CopyStep(out: seq<byte>, dist: nat, len: nat, mem: seq<byte>)
    requires dist <= |out| && |out| + len <= |mem| && len > 0
    ensures Copy(out, dist, len, mem) ==
            Copy(out + [if dist == 0 then mem[|out|] else out[|out| - dist]], dist, len - 1, mem)
  {
  }

  lemma CopyNone(out: seq<byte>, dist: nat, mem: seq<byte>)
    requires dist <= |out| <= |mem|
    ensures Copy(out, dist, 0, mem) == out
  {
  }

  lemma ReadRunFields(s: seq<byte>)
    requires |s| > 0 && s[0] % 4 == 0
    ensures Read(s) ==
            if s[0] == 0 then
              (if |s| < 2 then None
               else if s[1] == 0 then Some(Skip)
               else if |s| < 3 then None
               else Some(Run(s[1], s[2])))
            else if |s| < s[0] as int / 4 + 1 then None
            else Some(Literal(s[1..s[0] as int / 4 + 1]))
  {
    hide U16;
  }

  lemma ReadShortFields(s: seq<byte>)
    requires |s| > 0 && s[0] % 4 == 1
    ensures Read(s) ==
            if |s| < 2 || |s| < (s[0] / 4) % 4 + 2 then None
            else Some(ShortMatch(s[2..(s[0] / 4) % 4 + 2], (s[0] / 0x10) % 8 + 3, U16(s) / 0x80))
  {
    hide U16;
  }

  lemma ReadMidFields(s: seq<byte>)
    requires |s| > 0 && s[0] % 4 == 2
    ensures Read(s) == if |s| < 2 then None else Some(MidMatch((s[0] / 4) % 4 + 3, U16(s) / 0x10))
  {
    hide U16;
  }

  lemma ReadLongFields(s: seq<byte>)
    requires |s| > 0 && s[0] % 4 == 3
    ensures Read(s) ==
            if |s| < 3 || |s| < (s[0] / 4) % 0x10 + 3 then None
            else Some(LongMatch(s[3..(s[0] / 4) % 0x10 + 3], (U16(s) / 0x40) % 0x40, U16(s[1..]) / 0x10))
  {
    hide U16;
  }

  /** Byte-by-byte forward copy, so that an overlapping source is read as it changes. */
  method LinearMove(dst: array<byte>, to: nat, from: nat, len: byte, ghost mem: seq<byte>)
    requires from <= to && to + len <= dst.Length == |mem| && dst[to..] == mem[to..]
    modifies dst
    ensures dst[..to + len] == Copy(old(dst[..to]), to - from, len, mem)
    ensures dst[to + len..] == mem[to + len..]
  {
    hide Copy;
    var d, s, n := to, from, len;
    ghost var was := dst[..to];
    while n > 0
      invariant 0 <= n <= len && d == to + len - n && s == from + len - n
      invariant Copy(dst[..d], to - from, n, mem) == Copy(was, to - from, len, mem)
      invariant forall k :: d <= k < dst.Length ==> dst[k] == mem[k]
    {
      ghost var before, x := dst[..d], dst[s];
      assert x == if to == from then mem[d] else before[d - (to - from)];
      CopyStep(before, to - from, n, mem);
      dst[d] := dst[s];
      assert dst[..d + 1] == before + [x];
      d, s, n := d + 1, s + 1, n - 1;
    }
    CopyNone(dst[..d], to - from, mem);
  }

  /** memcpy or memset at the write position. */
  method Put(dst: array<byte>, at: nat, bytes: seq<byte>, ghost mem: seq<byte>)
    requires at + |bytes| <= dst.Length == |mem| && dst[at..] == mem[at..]
    modifies dst
    ensures dst[..at + |bytes|] == old(dst[..at]) + bytes
    ensures dst[at + |bytes|..] == mem[at + |bytes|..]
  {
    assert dst[at + |bytes|..] == dst[at..][|bytes|..] == mem[at..][|bytes|..];
    forall i | 0 <= i < |bytes| {
      dst[at + i] := bytes[i];
    }
  }

  /** Case 0: a no-op, a byte run or a literal string. */
  method UnpackRun(dst: array<byte>, src: seq<byte>, sOf: nat, dOf: nat, ghost mem: seq<byte>)
    returns (ok: bool, s: nat, d: nat)
    requires sOf < |src| && dOf <= dst.Length == |mem| && dst[dOf..] == mem[dOf..] && src[sOf] % 4 == 0
    modifies dst
    ensures ok <==> Read(src[sOf..]).Some? && Read(src[sOf..]).value.Fits(dOf, dst.Length)
    ensures ok ==> Applied(Read(src[sOf..]).value, sOf, s, dOf, d, old(dst[..dOf]), dst, mem)
  {
    hide Read, Copy;
    ReadRunFields(src[sOf..]);
    ghost var out := dst[..dOf];
    s, d := sOf, dOf;
    var b1: int := src[s];
    if b1 == 0 {
      if s + 2 > |src| {
        return false, s, d;
      }
      if src[s + 1] == 0 {
        s := s + 2;
        assert out + [] == out;
        CopyNone(out, 0, mem);
        return true, s, d;
      }
      var count: int := src[s + 1];
      if s + 3 > |src| || d + count > dst.Length {
        return false, s, d;
      }
      ghost var t := Run(count, src[sOf + 2]);
      assert Read(src[sOf..]) == Some(t);
      Put(dst, d, seq(count, _ => src[sOf + 2]), mem);
      assert seq(count, _ => src[sOf + 2]) == t.Lead();
      CopyNone(out + t.Lead(), 0, mem);
      assert t.Size() == count && t.Width() == 3;
      assert dst[..d + count] == out + t.Lead() == Apply(t, out, mem);
      return true, s + 3, d + count;
    }
    var n := b1 / 4;
    if s + n + 1 > |src| || d + n > dst.Length {
      return false, s, d;
    }
    Put(dst, d, src[s + 1..s + 1 + n], mem);
    assert src[s + 1..s + 1 + n] == src[s..][1..1 + n];
    CopyNone(out + src[s + 1..s + 1 + n], 0, mem);
    return true, s + n + 1, d + n;
  }

  /** The buffer after the record `t` has been consumed from `sOf` to `s` and applied at `dOf`. */
  ghost predicate Applied(t: Token, sOf: nat, s: nat, dOf: nat, d: nat, out: seq<byte>, dst: array<byte>,
                          mem: seq<byte>)
    requires t.Valid() && t.Fits(|out|, |mem|) && |out| == dOf && dst.Length == |mem|
    reads dst
  {
    && s == sOf + t.Width() && d == dOf + t.Size() <= dst.Length
    && dst[..d] == Apply(t, out, mem) && dst[d..] == mem[d..]
  }

  /** Literal bytes followed by a back reference, the tail of cases 1 and 3. */
  method CopyLeadAndMatch(dst: array<byte>, src: seq<byte>, sOf: nat, dOf: nat, b1: nat, b2: byte, bOf: nat,
                          ghost mem: seq<byte>)
    returns (ok: bool, s: nat, d: nat)
    requires sOf <= |src| && dOf <= dst.Length == |mem| && dst[dOf..] == mem[dOf..]
    modifies dst
    ensures ok <==> sOf + b1 <= |src| && dOf + b1 + b2 <= dst.Length && bOf <= dOf + b1
    ensures ok ==> s == sOf + b1 && d == dOf + b1 + b2
    ensures ok ==> dst[..d] == Copy(old(dst[..dOf]) + src[sOf..sOf + b1], bOf, b2, mem) && dst[d..] == mem[d..]
  {
    s, d := sOf, dOf;
    if s + b1 <= |src| && d + b1 + b2 as int <= dst.Length && d + b1 - bOf >= 0 {
      Put(dst, d, src[s..s + b1], mem);
      d := d + b1;
      s := s + b1;
      LinearMove(dst, d, d - bOf, b2, mem);
      d := d + b2;
      ok := true;
    } else {
      ok := false;
    }
  }

  /** Case 1: a match record of 2+2+3+9 bits. */
  method UnpackShort(dst: array<byte>, src: seq<byte>, sOf: nat, dOf: nat, ghost mem: seq<byte>)
    returns (ok: bool, s: nat, d: nat)
    requires sOf < |src| && dOf <= dst.Length == |mem| && dst[dOf..] == mem[dOf..] && src[sOf] % 4 == 1
    modifies dst
    ensures ok <==> Read(src[sOf..]).Some? && Read(src[sOf..]).value.Fits(dOf, dst.Length)
    ensures ok ==> Applied(Read(src[sOf..]).value, sOf, s, dOf, d, old(dst[..dOf]), dst, mem)
  {
    hide Read, Token.Packed, U16, Copy;
    ReadShortFields(src[sOf..]);
    if sOf + 2 > |src| {
      return false, sOf, dOf;
    }
    var b1: int := src[sOf];
    var bOf := U16(src[sOf..]) / 0x80;
    var b2 := (b1 / 0x10) % 8 + 3;
    b1 := (b1 / 4) % 4;
    ok, s, d := CopyLeadAndMatch(dst, src, sOf + 2, dOf, b1, b2, bOf, mem);
    if ok {
      assert src[sOf + 2..sOf + 2 + b1] == src[sOf..][2..2 + b1];
    }
  }

  /** Case 2: a match record of 2+2+12 bits. */
  method UnpackMid(dst: array<byte>, src: seq<byte>, sOf: nat, dOf: nat, ghost mem: seq<byte>)
    returns (ok: bool, s: nat, d: nat)
    requires sOf < |src| && dOf <= dst.Length == |mem| && dst[dOf..] == mem[dOf..] && src[sOf] % 4 == 2
    modifies dst
    ensures ok <==> Read(src[sOf..]).Some? && Read(src[sOf..]).value.Fits(dOf, dst.Length)
    ensures ok ==> Applied(Read(src[sOf..]).value, sOf, s, dOf, d, old(dst[..dOf]), dst, mem)
  {
    hide Read, Token.Packed, U16, Copy;
    ReadMidFields(src[sOf..]);
    if sOf + 2 > |src| {
      return false, sOf, dOf;
    }
    var b1: int := src[sOf];
    var bOf := U16(src[sOf..]) / 0x10;
    b1 := (b1 / 4) % 4 + 3;
    if dOf + b1 <= dst.Length && dOf - bOf >= 0 {
      LinearMove(dst, dOf, dOf - bOf, b1, mem);
      assert old(dst[..dOf]) + [] == old(dst[..dOf]);
      return true, sOf + 2, dOf + b1;
    }
    return false, sOf, dOf;
  }

  /** Case 3: a match record of 2+4+6+12 bits. */
  method UnpackLong(dst: array<byte>, src: seq<byte>, sOf: nat, dOf: nat, ghost mem: seq<byte>)
    returns (ok: bool, s: nat, d: nat)
    requires sOf < |src| && dOf <= dst.Length == |mem| && dst[dOf..] == mem[dOf..] && src[sOf] % 4 == 3
    modifies dst
    ensures ok <==> Read(src[sOf..]).Some? && Read(src[sOf..]).value.Fits(dOf, dst.Length)
    ensures ok ==> Applied(Read(src[sOf..]).value, sOf, s, dOf, d, old(dst[..dOf]), dst, mem)
  {
    hide Read, Token.Packed, U16, Copy;
    ReadLongFields(src[sOf..]);
    if sOf + 3 > |src| {
      return false, sOf, dOf;
    }
    var b1: int := src[sOf];
    var b2 := (U16(src[sOf..]) / 0x40) % 0x40;
    b1 := (b1 / 4) % 0x10;
    assert src[sOf..][1..] == src[sOf + 1..];
    var bOf := U16(src[sOf + 1..]) / 0x10;
    ok, s, d := CopyLeadAndMatch(dst, src, sOf + 3, dOf, b1, b2, bOf, mem);
    if ok {
      assert src[sOf + 3..sOf + 3 + b1] == src[sOf..][3..3 + b1];
    }
  }

  method Decompress(dst: array<byte>, src: seq<byte>) returns (ok: bool)
    modifies dst
    ensures ok <==> Unpack(src, [], old(dst[..])).Some?
    ensures ok ==> dst[..] == Unpack(src, [], old(dst[..])).value
  {
    hide Read, Apply, Unpack, Token.Packed, Token.Lead, Token.CopyLen, Token.CopyDist;
    var sOf: nat, dOf: nat, first := 0, 0, true;
    ghost var mem := dst[..];
    while first || dOf < dst.Length
      invariant 0 <= sOf <= |src| && 0 <= dOf <= dst.Length
      invariant dst[dOf..] == mem[dOf..]
      invariant first ==> sOf == dOf == 0
      invariant !first && dOf == dst.Length ==> Unpack(src, [], mem) == Some(dst[..dOf])
      invariant first || dOf < dst.Length ==> Unpack(src[sOf..], dst[..dOf], mem) == Unpack(src, [], mem)
      decreases |src| - sOf
    {
      first := false;
      if sOf + 1 > |src| {
        assert src[sOf..] == [];
        UnpackDone(dst[..dOf], mem);
        break;
      }
      ghost var rest, out := src[sOf..], dst[..dOf];
      ghost var start := sOf;
      match src[sOf] % 4 {
        case 0 => ok, sOf, dOf := UnpackRun(dst, src, sOf, dOf, mem);
        case 1 => ok, sOf, dOf := UnpackShort(dst, src, sOf, dOf, mem);
        case 2 => ok, sOf, dOf := UnpackMid(dst, src, sOf, dOf, mem);
        case _ => ok, sOf, dOf := UnpackLong(dst, src, sOf, dOf, mem);
      }
      UnpackStep(rest, out, mem);
      if !ok {
        return;
      }
      assert rest[Read(rest).value.Width()..] == src[sOf..];
    }
    assert dst[..dOf] + Zeros(0) == dst[..dOf];
    assert Unpack(src, [], mem) == Some(dst[..dOf] + Zeros(dst.Length - dOf));
    Put(dst, dOf, Zeros(dst.Length - dOf), dst[..]);
    assert dst[..] == dst[..dst.Length];
    return true;
  }

  // What the stream means.

  /** `src` is the records `ts` and then `rest`, which is empty unless `ts` already fills the buffer. */
  ghost predicate Encodes(src: seq<byte>, ts: seq<Token>, rest: seq<byte>, n: nat, mem: seq<byte>)
    requires n <= |mem|
  {
    && AllValid(ts) && AllFit(ts, n, |mem|) && src == PackAll(ts) + rest
    && (rest == [] || (ts != [] && n + TotalSize(ts) == |mem|))
  }

  function TotalSize(ts: seq<Token>): nat
    requires AllValid(ts)
  {
    if ts == [] then 0 else ts[0].Size() + TotalSize(ts[1..])
  }

  lemma {:induction false} ExpandSize(ts: seq<Token>, out: seq<byte>, mem: seq<byte>)
    requires AllValid(ts) && AllFit(ts, |out|, |mem|)
    ensures |Expand(ts, out, mem)| == |out| + TotalSize(ts)
  {
    if ts != [] {
      ExpandSize(ts[1..], Apply(ts[0], out, mem), mem);
    }
  }

  /** Every record list that fits is decoded to its LZ77 expansion followed by zeros. */
  lemma {:induction false} UnpackExpands(ts: seq<Token>, rest: seq<byte>, out: seq<byte>, mem: seq<byte>)
    requires |out| <= |mem| && AllValid(ts) && Encodes(PackAll(ts) + rest, ts, rest, |out|, mem)
    ensures var r := Expand(ts, out, mem);
            Unpack(PackAll(ts) + rest, out, mem) == Some(r + Zeros(|mem| - |r|))
    decreases |ts|
  {
    hide Read, Apply, Token.Packed, Token.Width;
    if ts == [] {
      assert PackAll(ts) + rest == [];
    } else {
      var t, src, tail := ts[0], PackAll(ts) + rest, PackAll(ts[1..]) + rest;
      assert src == t.Packed() + tail;
      ReadPacked(t, tail);
      var next := Apply(t, out, mem);
      UnpackStep(src, out, mem);
      if |next| == |mem| {
        assert Expand(ts[1..], next, mem) == next;
        assert next + Zeros(0) == next;
      } else {
        if ts[1..] == [] {
          assert TotalSize(ts) == t.Size();
        }
        assert src[t.Width()..] == tail;
        UnpackExpands(ts[1..], rest, next, mem);
      }
    }
  }

  lemma EncodesMore(src: seq<byte>, t: Token, us: seq<Token>, rest: seq<byte>, n: nat, mem: seq<byte>)
    requires t.Valid() && t.Packed() <= src && n <= |mem| && t.Fits(n, |mem|)
    requires AllValid(us) && AllFit(us, n + t.Size(), |mem|) && src[t.Width()..] == PackAll(us) + rest
    requires rest == [] || n + t.Size() + TotalSize(us) == |mem|
    ensures Encodes(src, [t] + us, rest, n, mem)
  {
    hide Token.Packed, Token.Width, Token.Lead;
    var ts := [t] + us;
    assert ts[1..] == us && ts[0] == t;
    assert src == t.Packed() + src[t.Width()..];
    assert PackAll(ts) == t.Packed() + PackAll(us);
  }

  /** Every source that decodes is such a list. */
  lemma {:induction false} UnpackParses(src: seq<byte>, out: seq<byte>, mem: seq<byte>)
    returns (ts: seq<Token>, rest: seq<byte>)
    requires |out| <= |mem| && Unpack(src, out, mem).Some?
    ensures Encodes(src, ts, rest, |out|, mem)
    decreases |src|
  {
    hide Read, Apply, Token.Packed, Token.Width;
    if src == [] {
      ts, rest := [], [];
    } else {
      var t := Read(src).value;
      PackedRead(src);
      var next, tail := Apply(t, out, mem), src[t.Width()..];
      assert src == t.Packed() + tail;
      if |next| == |mem| {
        EncodesMore(src, t, [], tail, |out|, mem);
        ts, rest := [t] + [], tail;
      } else {
        var us: seq<Token>;
        us, rest := UnpackParses(tail, next, mem);
        ts := [t] + us;
        EncodesMore(src, t, us, rest, |out|, mem);
      }
    }
  }

  /** The decoder succeeds on exactly the sources that are a fitting record list. */
  lemma UnpackSucceeds(src: seq<byte>, mem: seq<byte>)
    ensures Unpack(src, [], mem).Some? <==> exists ts, rest :: Encodes(src, ts, rest, 0, mem)
  {
    if Unpack(src, [], mem).Some? {
      var ts, rest := UnpackParses(src, [], mem);
    }
    forall ts, rest | Encodes(src, ts, rest, 0, mem)
      ensures Unpack(src, [], mem).Some?
    {
      UnpackExpands(ts, rest, [], mem);
    }
  }

  lemma NextMod(k: int, d: int)
    requires k >= 1 && d >= 1
    ensures k % d == if (k - 1) % d == d - 1 then 0 else (k - 1) % d + 1
  {
    var q, j := (k - 1) / d, (k - 1) % d;
    assert k - 1 == q * d + j;
    if j == d - 1 {
      assert k == (q + 1) * d + 0;
      Split(q + 1, 0, d);
    } else {
      assert k == q * d + (j + 1);
      Split(q, j + 1, d);
    }
  }

  /** An overlapping match repeats the last `dist` bytes with period `dist`. */
  lemma {:induction false} CopyRepeats(out: seq<byte>, dist: nat, len: nat, mem: seq<byte>, k: nat)
    requires 1 <= dist <= |out| && |out| + len <= |mem| && k < len
    ensures Copy(out, dist, len, mem)[|out| + k] == out[|out| - dist + k % dist]
    decreases len
  {
    var next := out + [out[|out| - dist]];
    if k == 0 {
      Split(0, 0, dist);
      assert Copy(next, dist, len - 1, mem)[|out|] == next[|out|];
    } else {
      CopyRepeats(next, dist, len - 1, mem, k - 1);
      NextMod(k, dist);
    }
  }

  /** What a record adds behind `before`: its own bytes, then bytes each equal to the one `dist` earlier. */
  predicate Adds(t: Token, before: seq<byte>, after: seq<byte>) {
    && before <= after
    && match t
       case Skip => after == before
       case Run(count, value) =>
         |after| == |before| + count && forall k :: |before| <= k < |after| ==> after[k] == value
       case Literal(bytes) => after == before + bytes
       case ShortMatch(bytes, len, dist) => Matched(before + bytes, len, dist, after)
       case MidMatch(len, dist) => Matched(before, len, dist, after)
       case LongMatch(bytes, len, dist) => Matched(before + bytes, len, dist, after)
  }

  predicate Matched(before: seq<byte>, len: int, dist: int, after: seq<byte>) {
    && |after| == |before| + len && before <= after
    && (dist > 0 ==> forall k :: |before| <= k < |after| ==> SameBack(after, k, dist))
  }

  predicate SameBack(s: seq<byte>, k: int, dist: int) {
    0 < dist <= k < |s| && s[k] == s[k - dist]
  }

  lemma {:induction false} CopyMatches(out: seq<byte>, dist: nat, len: nat, mem: seq<byte>)
    requires dist <= |out| && |out| + len <= |mem|
    ensures Matched(out, len, dist, Copy(out, dist, len, mem))
    decreases len
  {
    if len > 0 && dist > 0 {
      CopyMatches(out + [out[|out| - dist]], dist, len - 1, mem);
    }
  }

  lemma ApplyAdds(t: Token, out: seq<byte>, mem: seq<byte>)
    requires t.Valid() && t.Fits(|out|, |mem|)
    ensures Adds(t, out, Apply(t, out, mem))
  {
    CopyMatches(out + t.Lead(), t.CopyDist(), t.CopyLen(), mem);
    assert out + [] == out;
  }

  /** An expansion is reached record by record, each adding its own bytes and its match. */
  lemma {:induction false} ExpandAdds(ts: seq<Token>, out: seq<byte>, mem: seq<byte>) returns (at: seq<seq<byte>>)
    requires AllValid(ts) && AllFit(ts, |out|, |mem|)
    ensures |at| == |ts| + 1 && at[0] == out && at[|ts|] == Expand(ts, out, mem)
    ensures forall i :: 0 <= i < |ts| ==> Adds(ts[i], at[i], at[i + 1])
    decreases |ts|
  {
    hide Apply, Adds;
    if ts == [] {
      at := [out];
    } else {
      ApplyAdds(ts[0], out, mem);
      var rest := ExpandAdds(ts[1..], Apply(ts[0], out, mem), mem);
      at := [out] + rest;
    }
  }

  /** The fields of a packed record, taken from its first word and third byte. */
  lemma RecordFields(t: Token)
    requires t.Valid() && (t.ShortMatch? || t.MidMatch? || t.LongMatch?)
    ensures var p, w := t.Packed(), U16(t.Packed());
            match t
            case ShortMatch(bytes, len, dist) =>
              w % 4 == 1 && w / 4 % 4 == |bytes| && w / 0x10 % 8 == len - 3 && w / 0x80 == dist && p[2..] == bytes
            case MidMatch(len, dist) => w % 4 == 2 && w / 4 % 4 == len - 3 && w / 0x10 == dist
            case LongMatch(bytes, len, dist) =>
              && w % 4 == 3 && w / 4 % 0x10 == |bytes| && w / 0x40 % 0x40 == len
              && w / 0x1000 + 0x10 * p[2] as int == dist && p[3..] == bytes
            case _ => true
  {
    match t {
      case ShortMatch(bytes, len, dist) => ShortFields(|bytes|, len - 3, dist);
      case MidMatch(len, dist) => MidFields(len - 3, dist);
      case LongMatch(bytes, len, dist) =>
        LongFields(|bytes|, len, dist % 0x10);
        assert t.Packed()[..2] == Le16(3 + 4 * |bytes| + 0x40 * len + 0x1000 * (dist % 0x10));
        assert U16(t.Packed()) == U16(t.Packed()[..2]);
    }
  }

  lemma ShortFields(n: int, k: int, dist: int)
    requires 0 <= n <= 3 && 0 <= k < 8 && 0 <= dist < 0x200
    ensures var w := 1 + 4 * n + 0x10 * k + 0x80 * dist;
            w % 4 == 1 && w / 4 % 4 == n && w / 0x10 % 8 == k && w / 0x80 == dist
  {
    Split(n + 4 * k + 0x20 * dist, 1, 4);
    Split(k + 8 * dist, n, 4);
    Split(k + 8 * dist, 1 + 4 * n, 0x10);
    Split(dist, k, 8);
    Split(dist, 1 + 4 * n + 0x10 * k, 0x80);
  }

  lemma MidFields(k: int, dist: int)
    requires 0 <= k < 4 && 0 <= dist < 0x1000
    ensures var w := 2 + 4 * k + 0x10 * dist;
            w % 4 == 2 && w / 4 % 4 == k && w / 0x10 == dist && w % 0x100 % 4 == 2 && w % 0x100 / 4 % 4 == k
  {
    Split(k + 4 * dist, 2, 4);
    Split(dist, k, 4);
    Split(dist, 2 + 4 * k, 0x10);
    Split(dist / 0x10, 2 + 4 * k + 0x10 * (dist % 0x10), 0x100);
    Split(k + 4 * (dist % 0x10), 2, 4);
    Split(dist % 0x10, k, 4);
  }

  lemma LongFields(n: int, len: int, d: int)
    requires 0 <= n <= 15 && 0 <= len <= 63 && 0 <= d < 0x10
    ensures var w := 3 + 4 * n + 0x40 * len + 0x1000 * d;
            w % 4 == 3 && w / 4 % 0x10 == n && w / 0x40 % 0x40 == len && w / 0x1000 == d
  {
    Split(n + 0x10 * len + 0x400 * d, 3, 4);
    Split(len + 0x40 * d, n, 0x10);
    Split(len + 0x40 * d, 3 + 4 * n, 0x40);
    Split(d, len, 0x40);
    Split(d, 3 + 4 * n + 0x40 * len, 0x1000);
  }

  predicate NoStale(ts: seq<Token>)
    requires AllValid(ts)
  {
    forall i :: 0 <= i < |ts| ==> !ts[i].ReadsStale()
  }

  lemma {:induction false} CopyIgnoresMem(out: seq<byte>, dist: nat, len: nat, m1: seq<byte>, m2: seq<byte>)
    requires 0 < dist <= |out| || (len == 0 && dist <= |out|)
    requires |out| + len <= |m1| && |m1| == |m2|
    ensures Copy(out, dist, len, m1) == Copy(out, dist, len, m2)
    decreases len
  {
    if len > 0 {
      CopyIgnoresMem(out + [out[|out| - dist]], dist, len - 1, m1, m2);
    }
  }

  lemma {:induction false} ExpandIgnoresMem(ts: seq<Token>, out: seq<byte>, m1: seq<byte>, m2: seq<byte>)
    requires AllValid(ts) && AllFit(ts, |out|, |m1|) && |m1| == |m2| && NoStale(ts)
    ensures Expand(ts, out, m1) == Expand(ts, out, m2)
    decreases |ts|
  {
    if ts != [] {
      var t := ts[0];
      CopyIgnoresMem(out + t.Lead(), t.CopyDist(), t.CopyLen(), m1, m2);
      ExpandIgnoresMem(ts[1..], Apply(t, out, m1), m1, m2);
    }
  }

  /** A stale read leaks one byte of the old buffer to the output, at the position returned. */
  lemma {:induction false} StaleLeaks(ts: seq<Token>, out: seq<byte>, mem: seq<byte>) returns (k: nat)
    requires AllValid(ts) && AllFit(ts, |out|, |mem|) && !NoStale(ts)
    ensures |out| <= k < |Expand(ts, out, mem)| <= |mem| && Expand(ts, out, mem)[k] == mem[k]
    ensures forall out', mem' :: |out'| == |out| && |mem'| == |mem| ==>
              k < |Expand(ts, out', mem')| && Expand(ts, out', mem')[k] == mem'[k]
    decreases |ts|
  {
    hide Apply, Token.Lead, Token.CopyDist, Token.CopyLen;
    var t := ts[0];
    if t.ReadsStale() {
      k := |out| + |t.Lead()|;
      forall out', mem' | |out'| == |out| && |mem'| == |mem|
        ensures k < |Expand(ts, out', mem')| <= |mem| && Expand(ts, out', mem')[k] == mem'[k]
      {
        LeakNow(ts, out', mem');
      }
    } else {
      k := StaleLeaks(ts[1..], Apply(t, out, mem), mem);
      forall out', mem' | |out'| == |out| && |mem'| == |mem|
        ensures k < |Expand(ts, out', mem')| && Expand(ts, out', mem')[k] == mem'[k]
      {
        ExpandSize(ts, out, mem);
        ExpandSize(ts, out', mem');
      }
    }
  }

  lemma LeakNow(ts: seq<Token>, out: seq<byte>, mem: seq<byte>)
    requires AllValid(ts) && AllFit(ts, |out|, |mem|) && ts != [] && ts[0].ReadsStale()
    ensures var k := |out| + |ts[0].Lead()|;
            k < |Expand(ts, out, mem)| <= |mem| && Expand(ts, out, mem)[k] == mem[k]
  {
  }

  /** The expansion is independent of what the buffer held before exactly when no match has distance 0. */
  lemma ExpansionDetermined(ts: seq<Token>, cap: nat)
    requires AllValid(ts) && AllFit(ts, 0, cap)
    ensures NoStale(ts) <==>
            forall m1, m2 :: |m1| == cap && |m2| == cap ==> Expand(ts, [], m1) == Expand(ts, [], m2)
  {
    if NoStale(ts) {
      forall m1, m2 | |m1| == cap && |m2| == cap
        ensures Expand(ts, [], m1) == Expand(ts, [], m2)
      {
        ExpandIgnoresMem(ts, [], m1, m2);
      }
    } else {
      var m1: seq<byte>, m2: seq<byte> := Zeros(cap), seq(cap, _ => 1);
      var k := StaleLeaks(ts, [], m1);
      assert k < |Expand(ts, [], m2)|;
      assert Expand(ts, [], m1)[k] == 0 && Expand(ts, [], m2)[k] == 1;
    }
  }
}
