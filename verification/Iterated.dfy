/** Page decompression for LX and NE executables: iterated data records. */
module Iterated {
  import opened Base

  datatype Block = Block(iterations: int, data: seq<byte>) {
    predicate Valid() {
      0 <= iterations < TWO16 && |data| < TWO16
    }
  }

  predicate AllValid(bs: seq<Block>) {
    forall i :: 0 <= i < |bs| ==> bs[i].Valid()
  }

  function Repeat(n: nat, data: seq<byte>): (r: seq<byte>)
    ensures |r| == n * |data|
  {
    if n == 0 then [] else data + Repeat(n - 1, data)
  }

  lemma {:induction false} RepeatAgain(n: nat, data: seq<byte>)
    ensures Repeat(n, data) + data == Repeat(n + 1, data)
  {
    if n > 0 {
      RepeatAgain(n - 1, data);
      assert data + Repeat(n - 1, data) + data == data + (Repeat(n - 1, data) + data);
    }
  }

  /** Reference decoder: the bytes written into `room` bytes, or None for a corrupt source. */
  function Decode(src: seq<byte>, room: nat): (r: Option<seq<byte>>)
    ensures r.Some? ==> |r.value| == room
    decreases |src|
  {
    if src == [] then Some(Zeros(room))
    else if |src| < 4 then None
    else
      var n, len := U16(src), U16(src[2..]);
      if room < n * len || |src| - 4 < len then None
      else
        match Decode(src[4 + len..], room - n * len)
        case None => None
        case Some(tail) => Some(Repeat(n, src[4..4 + len]) + tail)
  }

  /** The inner loop: `n` copies of `data` from position `at`. */
  method Fill(dst: array<byte>, at: nat, data: seq<byte>, n: nat) returns (d: nat)
    requires at + n * |data| <= dst.Length
    modifies dst
    ensures d == at + n * |data| && dst[..d] == old(dst[..at]) + Repeat(n, data)
  {
    d := at;
    var i := 0;
    ghost var was, left := dst[..at], n * |data|;
    while i < n
      invariant i <= n && left == (n - i) * |data| && d + left == at + n * |data|
      invariant dst[..d] == was + Repeat(i, data)
    {
      RepeatAgain(i, data);
      Decrement(n - i, |data|);
      ghost var before := dst[..d];
      forall k | 0 <= k < |data| {
        dst[d + k] := data[k];
      }
      d, i, left := d + |data|, i + 1, left - |data|;
      assert dst[..d] == before + data;
    }
  }

  lemma Decrement(n: nat, m: nat)
    requires n > 0
    ensures n * m == (n - 1) * m + m >= m
  {
  }

  /** Decoding `rest` behind what is done gives the whole. */
  ghost predicate Decoding(goal: Option<seq<byte>>, done: seq<byte>, rest: seq<byte>, room: nat) {
    var r := Decode(rest, room);
    goal.Some? == r.Some? && (r.Some? ==> goal.value == done + r.value)
  }

  lemma DecodingStarts(src: seq<byte>, room: nat)
    ensures Decoding(Decode(src, room), [], src, room)
  {
  }

  lemma DecodingNext(goal: Option<seq<byte>>, done: seq<byte>, rest: seq<byte>, room: nat)
    requires Decoding(goal, done, rest, room) && rest != []
    ensures |rest| < 4 ==> goal == None
    ensures |rest| >= 4 ==>
              var n, len := U16(rest), U16(rest[2..]);
              if room < n * len || |rest| - 4 < len then goal == None
              else Decoding(goal, done + Repeat(n, rest[4..4 + len]), rest[4 + len..], room - n * len)
  {
    hide Repeat, U16;
    if |rest| >= 4 && goal.Some? {
      var n, len := U16(rest), U16(rest[2..]);
      var r, tail := Repeat(n, rest[4..4 + len]), Decode(rest[4 + len..], room - n * len).value;
      assert done + (r + tail) == (done + r) + tail;
    }
  }

  lemma DecodingEnds(goal: Option<seq<byte>>, done: seq<byte>, room: nat)
    requires Decoding(goal, done, [], room)
    ensures goal == Some(done + Zeros(room))
  {
  }

  method DecompressIterated(dst: array<byte>, src: seq<byte>) returns (ok: bool)
    modifies dst
    ensures ok <==> Decode(src, dst.Length).Some?
    ensures ok ==> dst[..] == Decode(src, dst.Length).value
  {
    hide Repeat, U16, Decode, Decoding;
    var s: nat, d: nat := 0, 0;
    ghost var goal := Decode(src, dst.Length);
    DecodingStarts(src, dst.Length);
    assert src[0..] == src && dst[..0] == [];
    while s < |src|
      invariant s <= |src| && d <= dst.Length && Decoding(goal, dst[..d], src[s..], dst.Length - d)
    {
      ghost var rest := src[s..];
      DecodingNext(goal, dst[..d], rest, dst.Length - d);
      if |src| - s < 4 {
        return false;
      }
      var n := U16(src[s..]);
      assert rest[2..] == src[s + 2..];
      var len := U16(src[s + 2..]);
      s := s + 4;
      if dst.Length - d < n * len || |src| - s < len {
        return false;
      }
      assert src[s..s + len] == rest[4..4 + len] && src[s + len..] == rest[4 + len..];
      d := Fill(dst, d, src[s..s + len], n);
      s := s + len;
    }
    ghost var done := dst[..d];
    assert src[s..] == [];
    DecodingEnds(goal, done, dst.Length - d);
    forall k | d <= k < dst.Length {
      dst[k] := 0;
    }
    assert dst[..] == done + Zeros(dst.Length - d);
    return true;
  }

  function PackAll(bs: seq<Block>): seq<byte>
    requires AllValid(bs)
  {
    if bs == [] then []
    else Le16(bs[0].iterations) + Le16(|bs[0].data|) + bs[0].data + PackAll(bs[1..])
  }

  function Expand(bs: seq<Block>): seq<byte>
    requires AllValid(bs)
  {
    if bs == [] then [] else Repeat(bs[0].iterations, bs[0].data) + Expand(bs[1..])
  }

  /** Packed blocks decode to their expansion padded with zeros exactly when it fits. */
  lemma {:induction false} DecodeExpands(bs: seq<Block>, room: nat)
    requires AllValid(bs)
    ensures Decode(PackAll(bs), room) ==
            if |Expand(bs)| <= room then Some(Expand(bs) + Zeros(room - |Expand(bs)|)) else None
    decreases |bs|
  {
    if bs == [] {
      assert [] + Zeros(room) == Zeros(room);
    } else {
      var b, rest := bs[0], PackAll(bs[1..]);
      DecodeBlock(b, rest, room);
      if b.iterations * |b.data| <= room {
        DecodeExpands(bs[1..], room - b.iterations * |b.data|);
        var r, e := Repeat(b.iterations, b.data), Expand(bs[1..]);
        assert forall z :: r + (e + z) == (r + e) + z;
      }
    }
  }

  lemma DecodeBlock(b: Block, rest: seq<byte>, room: nat)
    requires b.Valid()
    ensures var size := b.iterations * |b.data|;
            Decode(Le16(b.iterations) + Le16(|b.data|) + b.data + rest, room) ==
              if room < size then None
              else
                match Decode(rest, room - size)
                case None => None
                case Some(t) => Some(Repeat(b.iterations, b.data) + t)
  {
  }

  lemma PackFirst(src: seq<byte>, n: nat, len: nat, tail: seq<Block>)
    requires |src| >= 4 + len && n == U16(src) && len == U16(src[2..]) && AllValid(tail)
    requires src[4 + len..] == PackAll(tail)
    ensures var bs := [Block(n, src[4..4 + len])] + tail; AllValid(bs) && PackAll(bs) == src
  {
    var bs := [Block(n, src[4..4 + len])] + tail;
    assert bs[1..] == tail;
    Le16OfU16(src);
    Le16OfU16(src[2..]);
    hide Le16, U16;
    assert src == src[..2] + src[2..4] + src[4..4 + len] + src[4 + len..];
  }

  /** Every source that decodes is a list of packed blocks. */
  lemma {:induction false} DecodeParses(src: seq<byte>, room: nat) returns (bs: seq<Block>)
    requires Decode(src, room).Some?
    ensures AllValid(bs)
    ensures src == PackAll(bs)
    decreases |src|
  {
    if src == [] {
      bs := [];
    } else {
      var n, len := U16(src), U16(src[2..]);
      var tail := DecodeParses(src[4 + len..], room - n * len);
      bs := [Block(n, src[4..4 + len])] + tail;
      PackFirst(src, n, len, tail);
    }
  }

  /** Byte `k` of a repetition. */
  lemma {:induction false} RepeatAt(n: nat, data: seq<byte>, k: nat)
    requires k < n * |data|
    ensures Repeat(n, data)[k] == data[k % |data|]
  {
    Decrement(n, |data|);
    if k >= |data| {
      RepeatAt(n - 1, data, k - |data|);
      ModLess(k, |data|);
    } else {
      Split(0, k, |data|);
    }
  }

  lemma ModLess(k: nat, m: nat)
    requires 0 < m <= k
    ensures k % m == (k - m) % m
  {
    var q, r := (k - m) / m, (k - m) % m;
    assert (q + 1) * m + r == k;
    Split(q + 1, r, m);
  }

  /** Where block `i` lies in the packed source: its count, its length and its data, behind the blocks before it. */
  predicate LaidAt(src: seq<byte>, pos: nat, b: Block) {
    && pos + 4 + |b.data| <= |src|
    && src[pos] as int + 0x100 * src[pos + 1] as int == b.iterations
    && src[pos + 2] as int + 0x100 * src[pos + 3] as int == |b.data|
    && src[pos + 4..pos + 4 + |b.data|] == b.data
  }

  lemma {:induction false} PackedLaid(bs: seq<Block>, i: nat) returns (pos: nat)
    requires AllValid(bs) && i < |bs|
    ensures pos == |PackAll(bs[..i])| && LaidAt(PackAll(bs), pos, bs[i])
  {
    var b, rest := bs[0], PackAll(bs[1..]);
    if i == 0 {
      pos := 0;
      assert bs[..0] == [];
      FirstLaid(b, rest);
    } else {
      hide LaidAt, Le16;
      var p := PackedLaid(bs[1..], i - 1);
      ghost var head := Le16(b.iterations) + Le16(|b.data|) + b.data;
      pos := |head| + p;
      assert bs[..i][0] == b && bs[..i][1..] == bs[1..][..i - 1];
      assert PackAll(bs) == head + rest;
      LaidBehind(head, rest, p, bs[i]);
    }
  }

  lemma FirstLaid(b: Block, rest: seq<byte>)
    requires b.Valid()
    ensures LaidAt(Le16(b.iterations) + Le16(|b.data|) + b.data + rest, 0, b)
  {
    var s, n, len := Le16(b.iterations) + Le16(|b.data|) + b.data + rest, Le16(b.iterations), Le16(|b.data|);
    hide Le16;
    assert s[0] == n[0] && s[1] == n[1] && s[2] == len[0] && s[3] == len[1];
    assert s[4..4 + |b.data|] == b.data;
  }

  lemma LaidBehind(head: seq<byte>, rest: seq<byte>, p: nat, b: Block)
    requires LaidAt(rest, p, b)
    ensures LaidAt(head + rest, |head| + p, b)
  {
    var s, pos := head + rest, |head| + p;
    assert s[pos] == rest[p] && s[pos + 1] == rest[p + 1] && s[pos + 2] == rest[p + 2] && s[pos + 3] == rest[p + 3];
    assert s[pos + 4..pos + 4 + |b.data|] == rest[p + 4..p + 4 + |b.data|];
  }
}
