/** Whether the debugger's step expects a conditional jump to be taken. */
module Jumps {
  import opened Base

  function Flag(eflags: bv32, bit: bv32): bool
    requires bit < 32
  {
    (eflags >> bit) & 1 == 1
  }

  /** The flag tests, by mnemonic; the two signed comparisons are corrected at the end. */
  function Taken(m: string, eflags: bv32, ecx: bv32): bool {
    var cf, pf, zf, sf, of :=
      Flag(eflags, 0), Flag(eflags, 2), Flag(eflags, 6), Flag(eflags, 7), Flag(eflags, 11);
    var taken :=
      if m == "je" || m == "jz" then zf
      else if m == "jne" || m == "jnz" then !zf
      else if m == "jae" || m == "jnc" || m == "jge" then !cf
      else if m == "jb" || m == "jc" || m == "jl" then cf
      else if m == "ja" then !cf && !zf
      else if m == "jbe" then cf || zf
      else if m == "jg" then !zf && sf == of
      else if m == "jle" then zf || sf != of
      else if m == "js" then sf
      else if m == "jns" then !sf
      else if m == "jo" then of
      else if m == "jno" then !of
      else if m == "jp" || m == "jpe" then pf
      else if m == "jnp" || m == "jpo" then !pf
      else if m == "jecxz" || m == "jcxz" then ecx & 0xFFFF == 0
      else false;
    if m == "jge" then sf == of else if m == "jl" then sf != of else taken
  }

  /** The number of values of an operand of 8, 16 or 32 bits. */
  predicate Width(word: int) {
    word == 0x100 || word == 0x1_0000 || word == 0x1_0000_0000
  }

  /** An operand in two's complement. */
  function Signed(a: int, word: int): int {
    if a < word / 2 then a else a - word
  }

  /** The number of one bits. */
  function Ones(n: nat): nat {
    if n == 0 then 0 else n % 2 + Ones(n / 2)
  }

  /** The flags the processor sets for `cmp a, b`: borrow, even parity, zero, sign of the result, signed overflow. */
  predicate Compared(eflags: bv32, a: int, b: int, word: int)
    requires Width(word)
  {
    && (Flag(eflags, 0) <==> a < b)
    && (Flag(eflags, 2) <==> Ones((a - b) % 0x100) % 2 == 0)
    && (Flag(eflags, 6) <==> (a - b) % word == 0)
    && (Flag(eflags, 7) <==> (a - b) % word >= word / 2)
    && (Flag(eflags, 11) <==> !(-(word / 2) <= Signed(a, word) - Signed(b, word) < word / 2))
  }

  lemma TakenOnFlags(eflags: bv32, ecx: bv32)
    ensures Taken("je", eflags, ecx) <==> Flag(eflags, 6)
    ensures Taken("jne", eflags, ecx) <==> !Flag(eflags, 6)
    ensures Taken("jb", eflags, ecx) <==> Flag(eflags, 0)
    ensures Taken("jae", eflags, ecx) <==> !Flag(eflags, 0)
    ensures Taken("ja", eflags, ecx) <==> !Flag(eflags, 0) && !Flag(eflags, 6)
    ensures Taken("jbe", eflags, ecx) <==> Flag(eflags, 0) || Flag(eflags, 6)
    ensures Taken("jl", eflags, ecx) <==> Flag(eflags, 7) != Flag(eflags, 11)
    ensures Taken("jge", eflags, ecx) <==> Flag(eflags, 7) == Flag(eflags, 11)
    ensures Taken("jg", eflags, ecx) <==> !Flag(eflags, 6) && Flag(eflags, 7) == Flag(eflags, 11)
    ensures Taken("jle", eflags, ecx) <==> Flag(eflags, 6) || Flag(eflags, 7) != Flag(eflags, 11)
  {
    hide Flag;
  }

  /** The second names. */
  lemma SameTest(eflags: bv32, ecx: bv32)
    ensures Taken("jz", eflags, ecx) <==> Flag(eflags, 6)
    ensures Taken("jnz", eflags, ecx) <==> !Flag(eflags, 6)
    ensures Taken("jc", eflags, ecx) <==> Flag(eflags, 0)
    ensures Taken("jnc", eflags, ecx) <==> !Flag(eflags, 0)
  {
    hide Flag;
  }

  /** The tests of a single flag. */
  lemma SingleFlag(eflags: bv32, ecx: bv32)
    ensures Taken("js", eflags, ecx) <==> Flag(eflags, 7)
    ensures Taken("jns", eflags, ecx) <==> !Flag(eflags, 7)
    ensures Taken("jo", eflags, ecx) <==> Flag(eflags, 11)
    ensures Taken("jno", eflags, ecx) <==> !Flag(eflags, 11)
  {
    hide Flag;
  }

  lemma ParityFlag(eflags: bv32, ecx: bv32)
    ensures Taken("jp", eflags, ecx) <==> Flag(eflags, 2)
    ensures Taken("jpe", eflags, ecx) <==> Flag(eflags, 2)
    ensures Taken("jnp", eflags, ecx) <==> !Flag(eflags, 2)
    ensures Taken("jpo", eflags, ecx) <==> !Flag(eflags, 2)
  {
    hide Flag;
  }

  lemma Difference(a: int, b: int, word: int)
    requires 0 <= a < word && 0 <= b < word
    ensures (a - b) % word == if a < b then a - b + word else a - b
  {
    Split(if a < b then -1 else 0, if a < b then a - b + word else a - b, word);
  }

  /** After a comparison, sign and overflow differ exactly when the first operand is less. */
  lemma SignAndOverflow(eflags: bv32, a: int, b: int, word: int)
    requires Width(word) && 0 <= a < word && 0 <= b < word && Compared(eflags, a, b, word)
    ensures Flag(eflags, 7) != Flag(eflags, 11) <==> Signed(a, word) < Signed(b, word)
    ensures Flag(eflags, 6) <==> a == b
    ensures Flag(eflags, 0) <==> a < b
    ensures Signed(a, word) == Signed(b, word) <==> a == b
  {
    hide Flag;
    Difference(a, b, word);
  }

  /** After `cmp a, b`, in any width, each jump is expected exactly when the relation its mnemonic names holds. */
  lemma JumpsFollowComparison(eflags: bv32, a: int, b: int, word: int, ecx: bv32)
    requires Width(word) && 0 <= a < word && 0 <= b < word && Compared(eflags, a, b, word)
    ensures Taken("je", eflags, ecx) <==> a == b
    ensures Taken("jne", eflags, ecx) <==> a != b
    ensures Taken("jb", eflags, ecx) <==> a < b
    ensures Taken("jae", eflags, ecx) <==> a >= b
    ensures Taken("ja", eflags, ecx) <==> a > b
    ensures Taken("jbe", eflags, ecx) <==> a <= b
    ensures Taken("jl", eflags, ecx) <==> Signed(a, word) < Signed(b, word)
    ensures Taken("jge", eflags, ecx) <==> Signed(a, word) >= Signed(b, word)
    ensures Taken("jg", eflags, ecx) <==> Signed(a, word) > Signed(b, word)
    ensures Taken("jle", eflags, ecx) <==> Signed(a, word) <= Signed(b, word)
    ensures Taken("jz", eflags, ecx) <==> a == b
    ensures Taken("jnz", eflags, ecx) <==> a != b
    ensures Taken("jc", eflags, ecx) <==> a < b
    ensures Taken("jnc", eflags, ecx) <==> a >= b
  {
    hide *;
    SameTest(eflags, ecx);
    SignAndOverflow(eflags, a, b, word);
    TakenOnFlags(eflags, ecx);
  }

  /** The sign of the difference as an operand of that width, whether it fits one, and the parity of its low byte. */
  lemma JumpsFollowDifference(eflags: bv32, a: int, b: int, word: int, ecx: bv32)
    requires Width(word) && 0 <= a < word && 0 <= b < word && Compared(eflags, a, b, word)
    ensures var d := Signed(a, word) - Signed(b, word);
            && (Taken("jo", eflags, ecx) <==> d < -(word / 2) || d >= word / 2)
            && (Taken("jno", eflags, ecx) <==> -(word / 2) <= d < word / 2)
            && (-(word / 2) <= d < word / 2 ==> (Taken("js", eflags, ecx) <==> d < 0))
            && (d < -(word / 2) || d >= word / 2 ==> (Taken("js", eflags, ecx) <==> d >= 0))
    ensures Taken("jns", eflags, ecx) <==> !Taken("js", eflags, ecx)
    ensures Taken("jp", eflags, ecx) <==> Ones((a - b) % 0x100) % 2 == 0
    ensures Taken("jnp", eflags, ecx) <==> Ones((a - b) % 0x100) % 2 == 1
    ensures Taken("jpe", eflags, ecx) <==> Taken("jp", eflags, ecx)
    ensures Taken("jpo", eflags, ecx) <==> Taken("jnp", eflags, ecx)
  {
    hide Taken, Flag, Ones;
    SingleFlag(eflags, ecx);
    ParityFlag(eflags, ecx);
    Difference(a, b, word);
  }

  /** jcxz tests the low half of ecx, as the processor does. */
  lemma JcxzAgrees(eflags: bv32, ecx: bv32)
    ensures Taken("jcxz", eflags, ecx) <==> ecx << 16 == 0
  {
    hide Flag;
  }

  /** jecxz tests all of ecx, the debugger its low half: they agree unless just the high half is set. */
  lemma JecxzAgrees(eflags: bv32, ecx: bv32)
    ensures (Taken("jecxz", eflags, ecx) <==> ecx == 0) <==> ecx == 0 || ecx & 0xFFFF != 0
  {
    hide Flag;
  }
}
