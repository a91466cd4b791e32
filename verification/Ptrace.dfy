/** Byte access to the debuggee through aligned 32-bit words. */
module Ptrace {

  type Memory = seq<bv8>

  predicate Mapped(mem: Memory, addr: nat, len: nat) {
    |mem| % 4 == 0 && addr + len <= |mem|
  }

  /** PTRACE_PEEKTEXT at an aligned address. */
  function Word(b0: bv8, b1: bv8, b2: bv8, b3: bv8): bv32 {
    (b0 as bv32) | ((b1 as bv32) << 8) | ((b2 as bv32) << 16) | ((b3 as bv32) << 24)
  }

  function Peek(mem: Memory, a: nat): bv32
    requires a + 4 <= |mem|
  {
    Word(mem[a], mem[a + 1], mem[a + 2], mem[a + 3])
  }

  /** (word >> (offset * 8)) & 0xFF. */
  function ByteAt(word: bv32, offset: bv32): bv8
    requires offset < 4
  {
    ((word >> (offset * 8)) & 0xFF) as bv8
  }

  /** (word & ~(0xFF << (offset * 8))) | (byte << (offset * 8)). */
  function Patch(word: bv32, offset: bv32, b: bv8): bv32
    requires offset < 4
  {
    (word & !(0xFF << (offset * 8))) | ((b as bv32) << (offset * 8))
  }

  /** PTRACE_POKETEXT. */
  function Poke(mem: Memory, a: nat, word: bv32): (r: Memory)
    requires a + 4 <= |mem|
    ensures |r| == |mem|
  {
    mem[a := ByteAt(word, 0)][a + 1 := ByteAt(word, 1)][a + 2 := ByteAt(word, 2)][a + 3 := ByteAt(word, 3)]
  }

  function Offset(n: nat): (r: bv32)
    requires n < 4
    ensures r < 4
  {
    if n == 0 then 0 else if n == 1 then 1 else if n == 2 then 2 else 3
  }

  lemma PatchBytes(word: bv32, offset: bv32, b: bv8, k: bv32)
    requires offset < 4 && k < 4
    ensures ByteAt(Patch(word, offset, b), k) == if k == offset then b else ByteAt(word, k)
  {
  }

  lemma PeekByte(mem: Memory, a: nat, n: nat)
    requires a + 4 <= |mem| && n < 4
    ensures ByteAt(Peek(mem, a), Offset(n)) == mem[a + n]
  {
  }

  /** Patching one byte of a word and storing the word changes that byte and no other. */
  lemma PokeByte(mem: Memory, a: nat, n: nat, b: bv8)
    requires a + 4 <= |mem| && n < 4
    ensures Poke(mem, a, Patch(Peek(mem, a), Offset(n), b)) == mem[a + n := b]
  {
    hide ByteAt, Word, Patch;
    var w := Patch(Peek(mem, a), Offset(n), b);
    PeekByte(mem, a, 0);
    PeekByte(mem, a, 1);
    PeekByte(mem, a, 2);
    PeekByte(mem, a, 3);
    PatchBytes(Peek(mem, a), Offset(n), b, 0);
    PatchBytes(Peek(mem, a), Offset(n), b, 1);
    PatchBytes(Peek(mem, a), Offset(n), b, 2);
    PatchBytes(Peek(mem, a), Offset(n), b, 3);
    hide Peek;
    FourUpdates(mem, a, n, b, ByteAt(w, 0), ByteAt(w, 1), ByteAt(w, 2), ByteAt(w, 3));
  }

  lemma FourUpdates<T>(s: seq<T>, a: nat, n: nat, b: T, c0: T, c1: T, c2: T, c3: T)
    requires a + 4 <= |s| && n < 4
    requires c0 == (if n == 0 then b else s[a]) && c1 == (if n == 1 then b else s[a + 1])
    requires c2 == (if n == 2 then b else s[a + 2]) && c3 == (if n == 3 then b else s[a + 3])
    ensures s[a := c0][a + 1 := c1][a + 2 := c2][a + 3 := c3] == s[a + n := b]
  {
  }
}
