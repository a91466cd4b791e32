/** The debugger's temporary breakpoints in text mode: one byte of the debuggee at a time is replaced by INT3. */
module Breakpoints {
  import opened Base
  import opened Ptrace

  const INT3: bv8 := 0xCC
  const SIGTRAP := 5
  const SIGSEGV := 11

  datatype Registers = Registers(eip: nat, cs: nat)

  datatype Status = Stopped(signal: nat) | Exited | Signaled | Failed

  /** What waitpid reports next, with the program's own memory and its registers by then. */
  datatype Stop = Stop(status: Status, mem: Memory, regs: Registers)

  /** The disassembler's answer; a size of 0 or less means it failed. */
  datatype Decoded = Decoded(size: int, isCall: bool)

  /** A command, with what the outside world will answer while it runs. */
  datatype Command =
    | Continue(stops: seq<Stop>)
    | Step(next: nat, stops: seq<Stop>)
    | Over(next: nat, instruction: Decoded, stops: seq<Stop>)
    | Quit
    | Other

  /** The selector bases of the debuggee's LDT, indexed by selector / 8. */
  type Bases = s: seq<nat> | |s| == 8192 witness seq(8192, _ => 0)

  /** linearAddressFromSelectors. */
  function Linear(bases: Bases, cs: nat, ip: nat): nat
    requires cs < TWO16 && ip < TWO16
  {
    (bases[cs / 8] + ip) % TWO32
  }

  /** Where the handlers point the program counter after a hit. */
  function OffsetOf(addr: nat, base: nat): nat {
    (addr - base) % TWO32
  }

  /** CS:IP after a hit is the patched address exactly when that lies within 64K above the segment's base. */
  lemma MapsBack(bases: Bases, cs: nat, addr: nat)
    requires cs < TWO16 && addr < TWO32 && bases[cs / 8] < TWO32
    ensures Linear(bases, cs, OffsetOf(addr, bases[cs / 8]) % TWO16) == addr
            <==> OffsetOf(addr, bases[cs / 8]) < TWO16
  {
  }

  /** Memory after the debuggee has run until `stop` without writing the bytes of `armed`. */
  function Written(before: Memory, stop: Stop, armed: set<nat>): (r: Memory)
    ensures |r| == |before|
    ensures forall i :: 0 <= i < |r| ==> r[i] == if i >= |stop.mem| || i in armed then before[i] else stop.mem[i]
  {
    seq(|before|, i requires 0 <= i < |before| => if i >= |stop.mem| || i in armed then before[i] else stop.mem[i])
  }

  /** What the `k`th wait reports; after the last stop given the debuggee has exited. */
  function StatusAt(stops: seq<Stop>, k: nat): Status {
    if k < |stops| then stops[k].status else Exited
  }

  /** A trap comes before any fault or exit. */
  ghost predicate TrapsFirst(stops: seq<Stop>) {
    exists k: nat :: IsTrap(stops, k) && forall j: nat :: j < k ==> Passes(stops, j)
  }

  predicate IsTrap(stops: seq<Stop>, k: nat) {
    k < |stops| && stops[k].status == Stopped(SIGTRAP)
  }

  predicate Passes(stops: seq<Stop>, k: nat) {
    k < |stops| && !(stops[k].status in {Stopped(SIGTRAP), Stopped(SIGSEGV), Exited})
  }

  lemma TrapsAt(stops: seq<Stop>, k: nat)
    requires forall j: nat :: j < k ==> Passes(stops, j)
    ensures IsTrap(stops, k) ==> TrapsFirst(stops)
    ensures !IsTrap(stops, k) && !Passes(stops, k) ==> !TrapsFirst(stops)
  {
    if !IsTrap(stops, k) && !Passes(stops, k) {
      forall i: nat | IsTrap(stops, i)
        ensures exists j: nat :: j < i && !Passes(stops, j)
      {
        assert i < k ==> Passes(stops, i);
        assert k < i && !Passes(stops, k);
      }
    }
  }

  /** A program counter that stands for the linear address `addr`, if it does not leave the segment. */
  lemma CounterMeans(bases: Bases, cs: nat, addr: nat)
    requires cs < TWO16 && addr < TWO32
    ensures var eip := (addr - bases[cs / 8]) % TWO32;
            && (eip + bases[cs / 8]) % TWO32 == addr
            && (Linear(bases, cs, eip % TWO16) == addr <==> eip < TWO16)
  {
    var base := bases[cs / 8];
    var eip := (addr - base) % TWO32;
    assert eip + base == -((addr - base) / TWO32) * TWO32 + addr;
    Split(-((addr - base) / TWO32), addr, TWO32);
    var low := eip % TWO16;
    if eip >= TWO16 {
      OtherResidue(base + low, eip - low);
      assert base + low + (eip - low) == base + eip;
    }
  }

  lemma OtherResidue(x: int, d: int)
    requires 0 < d < TWO32
    ensures (x + d) % TWO32 != x % TWO32
  {
    var q, r := x / TWO32, x % TWO32;
    if r + d < TWO32 {
      Split(q, r + d, TWO32);
    } else {
      Split(q + 1, r + d - TWO32, TWO32);
    }
  }

  class Debugger {
    /** The debuggee's memory as ptrace sees it, and as the program alone would have left it. */
    var mem: Memory
    ghost var program: Memory
    var regs: Registers
    const isLx: bool
    const shared: Option<Bases>

    var running: bool
    var stepActive: bool
    var stepAddr: nat
    var stepByte: bv8
    var overActive: bool
    var overAddr: nat
    var overByte: bv8
    /** Some write to the debuggee's memory has failed. */
    ghost var failed: bool

    function Armed(): set<nat>
      reads this
    {
      (if stepActive then {stepAddr} else {}) + (if overActive then {overAddr} else {})
    }

    ghost predicate Shape()
      reads this
    {
      |mem| == |program| && |mem| % 4 == 0 && |mem| <= TWO32
    }

    /**
     * As long as no write has failed, the memory differs from the program's in the armed byte only, whose original
     * value is saved.
     */
    ghost predicate Valid()
      reads this
    {
      Shape() && (failed || Intact())
    }

    ghost predicate Intact()
      reads this
      requires Shape()
    {
      && !(stepActive && overActive)
      && (stepActive ==> stepAddr < |mem| && mem == program[stepAddr := INT3] && stepByte == program[stepAddr])
      && (overActive ==> overAddr < |mem| && mem == program[overAddr := INT3] && overByte == program[overAddr])
      && (!stepActive && !overActive ==> mem == program)
    }

    /** As long as no write has failed, nothing is armed and every byte is the program's own. */
    ghost predicate Clean()
      reads this
    {
      Shape() && (failed || (!stepActive && !overActive && mem == program))
    }

    constructor (memory: Memory, registers: Registers, lx: bool, bases: Option<Bases>)
      requires |memory| % 4 == 0 && |memory| <= TWO32
      ensures Clean() && running && !failed && mem == memory
    {
      mem, program, regs, isLx, shared := memory, memory, registers, lx, bases;
      running, stepActive, overActive, failed := true, false, false, false;
      stepAddr, stepByte, overAddr, overByte := 0, 0, 0, 0;
    }

    // Byte access.

    /** ptrace_read_memory. */
    method ReadMemory(addr: nat, len: nat) returns (ok: bool, buf: seq<bv8>)
      requires |mem| % 4 == 0
      ensures ok <==> Mapped(mem, addr, len) || len == 0
      ensures ok ==> buf == if len == 0 then [] else mem[addr..addr + len]
    {
      ok, buf := true, [];
      var a := addr;
      while |buf| < len
        invariant a == addr + |buf| && |buf| <= len && (|buf| > 0 ==> a <= |mem| && buf == mem[addr..a])
        decreases len - |buf|
      {
        if a / 4 * 4 + 4 > |mem| {
          return false, buf;
        }
        PeekByte(mem, a / 4 * 4, a % 4);
        buf := buf + [ByteAt(Peek(mem, a / 4 * 4), Offset(a % 4))];
        a := a + 1;
      }
    }

    /** One byte, through its word. */
    method WriteByte(a: nat, b: bv8) returns (ok: bool)
      requires |mem| % 4 == 0
      modifies this`mem, this`failed
      ensures failed == (old(failed) || !ok)
      ensures ok ==> a < |old(mem)| && mem == old(mem)[a := b]
      ensures !ok ==> mem == old(mem)
    {
      var poked: bool := *;
      if a / 4 * 4 + 4 > |mem| || !poked {
        failed := true;
        return false;
      }
      PokeByte(mem, a / 4 * 4, a % 4, b);
      hide Poke, Patch, Peek;
      mem := Poke(mem, a / 4 * 4, Patch(Peek(mem, a / 4 * 4), Offset(a % 4), b));
      ok := true;
    }

    /** ptrace_write_memory: exactly the bytes addressed, or a failure. */
    method WriteMemory(addr: nat, buf: seq<bv8>) returns (ok: bool)
      requires |mem| % 4 == 0
      modifies this`mem, this`failed
      ensures |mem| == old(|mem|) && failed == (old(failed) || !ok)
      ensures ok && buf != [] ==>
        Mapped(old(mem), addr, |buf|) && mem == old(mem)[..addr] + buf + old(mem)[addr + |buf|..]
      ensures buf == [] || (!ok && |buf| == 1) ==> mem == old(mem)
    {
      ok := true;
      var i, a := 0, addr;
      while i < |buf|
        invariant 0 <= i <= |buf| && a == addr + i && |mem| == old(|mem|) && failed == old(failed)
        invariant i > 0 ==> a <= |mem| && mem == old(mem)[..addr] + buf[..i] + old(mem)[a..]
        invariant i == 0 ==> mem == old(mem)
      {
        ok := WriteByte(a, buf[i]);
        if !ok {
          return;
        }
        OneMore(old(mem), addr, buf, i);
        i, a := i + 1, a + 1;
      }
      assert buf[..i] == buf;
    }

    // Running.

    /** The debuggee runs until `stop`; it may write anything but an armed byte. */
    method Run(stop: Stop)
      requires Valid()
      modifies this`mem, this`program, this`regs
      ensures Valid() && (Clean() <==> old(Clean())) && regs == stop.regs && |mem| == old(|mem|)
      ensures program == Written(old(program), stop, Armed())
    {
      var armed := Armed();
      mem := Written(mem, stop, armed);
      program := Written(program, stop, armed);
      regs := stop.regs;
    }

    /** waitpid; a debuggee with nothing more to report is taken to have exited. */
    method Wait(stops: seq<Stop>) returns (status: Status, rest: seq<Stop>)
      requires Valid()
      modifies this`mem, this`program, this`regs
      ensures Valid() && (old(Clean()) ==> Clean()) && |mem| == old(|mem|)
      ensures status == StatusAt(stops, 0) && rest == if stops == [] then [] else stops[1..]
    {
      if stops == [] {
        return Exited, [];
      }
      Run(stops[0]);
      status, rest := stops[0].status, stops[1..];
    }

    /** wait_for_trap: other signals than SIGTRAP and SIGSEGV are swallowed. */
    method WaitForTrap(stops: seq<Stop>) returns (trapped: bool)
      requires Valid()
      modifies this`mem, this`program, this`regs
      ensures Valid() && (old(Clean()) ==> Clean()) && |mem| == old(|mem|)
      ensures trapped <==> TrapsFirst(stops)
    {
      var rest := stops;
      ghost var k: nat := 0;
      while true
        invariant Valid() && (old(Clean()) ==> Clean()) && |mem| == old(|mem|)
        invariant k <= |stops| && rest == stops[k..] && forall j: nat :: j < k ==> Passes(stops, j)
        decreases |rest|
      {
        TrapsAt(stops, k);
        var status, more := Wait(rest);
        if status == Stopped(SIGTRAP) {
          return true;
        } else if status == Stopped(SIGSEGV) || status == Exited {
          return false;
        }
        rest := more;
        k := k + 1;
      }
    }

    // Arming and disarming.

    /** doSoftwareStep towards the address that calculateNextIP gives. */
    method DoSoftwareStep(next: nat) returns (ok: bool)
      requires Clean()
      modifies this`mem, this`stepAddr, this`stepByte, this`stepActive, this`failed
      ensures Valid() && |mem| == old(|mem|) && (old(failed) ==> failed)
      ensures ok ==> stepActive && stepAddr == next < |mem| && mem[next] == INT3
      ensures (!ok ==> mem == old(mem)) && (!failed ==> (ok <==> stepActive))
    {
      var read, buf := ReadMemory(next, 1);
      if !read {
        return false;
      }
      stepByte, stepAddr, stepActive := buf[0], next, true;
      var written := WriteMemory(next, [INT3]);
      if !written {
        stepActive := false;
        return false;
      }
      OneByte(old(mem), next, INT3);
      assert !old(failed) ==> mem == program[next := INT3];
      ok := true;
    }

    /** The program counter names a linear address: its offset in the segment of CS, unless that is address 0. */
    ghost predicate Counts(linear: nat)
      reads this
    {
      if isLx || shared.None? then linear == regs.eip
      else
        var l := (shared.value[regs.cs % TWO16 / 8] + regs.eip % TWO16) % TWO32;
        linear == if l == 0 then regs.eip else l
    }

    /** doStepOver: a breakpoint behind a call, a software step elsewhere, or the processor's step in LX programs. */
    method DoStepOver(next: nat, instruction: Decoded) returns (ok: bool)
      requires Clean()
      modifies this`mem, this`failed
      modifies this`stepAddr, this`stepByte, this`stepActive, this`overAddr, this`overByte, this`overActive
      ensures Valid() && |mem| == old(|mem|) && (old(failed) ==> failed)
      ensures ok ==> instruction.size > 0
      ensures !failed ==> (overActive <==> ok && instruction.isCall)
      ensures !failed ==> (stepActive <==> ok && !instruction.isCall && !isLx && shared.Some?)
      ensures !failed && overActive ==> overAddr < |mem| && mem[overAddr] == INT3
      ensures !failed && overActive ==> var at := overAddr; instruction.size <= at && old(Counts(at - instruction.size))
      ensures !failed && stepActive ==> stepAddr == next && mem[next] == INT3
    {
      var linear := regs.eip;
      if !isLx && shared.Some? {
        linear := Linear(shared.value, regs.cs % TWO16, regs.eip % TWO16);
        if linear == 0 {
          linear := regs.eip;
        }
      }
      assert old(Counts(linear));
      var read, _ := ReadMemory(linear, 64);
      if !read || instruction.size <= 0 {
        return false;
      }
      if !instruction.isCall {
        if !isLx && shared.Some? {
          ok := DoSoftwareStep(next);
        } else {
          ok := true;
        }
        return;
      }
      var nextLinear := linear + instruction.size;
      var buf;
      read, buf := ReadMemory(nextLinear, 1);
      if !read {
        return false;
      }
      overAddr, overByte, overActive := nextLinear, buf[0], true;
      var written := WriteMemory(nextLinear, [INT3]);
      if !written {
        overActive := false;
        return false;
      }
      OneByte(old(mem), nextLinear, INT3);
      assert !old(failed) ==> mem == program[nextLinear := INT3];
      ok := true;
    }

    /** The program counter stands for a linear address: in a segment it is the offset that leads there. */
    ghost predicate Resumes(addr: nat)
      reads this
    {
      if isLx then regs.eip == addr
      else if shared.None? then regs.eip == addr % TWO16
      else
        && (regs.eip + shared.value[regs.cs % TWO16 / 8]) % TWO32 == addr
        && (Linear(shared.value, regs.cs % TWO16, regs.eip % TWO16) == addr <==> regs.eip < TWO16)
    }

    /** handleSoftwareStepBreakpoint. */
    method HandleSoftwareStep() returns (ok: bool)
      requires Valid()
      modifies this`mem, this`regs, this`stepActive, this`failed
      ensures Valid() && !stepActive && |mem| == old(|mem|) && regs.cs == old(regs.cs)
      ensures failed == (old(failed) || !ok)
      ensures ok && old(stepActive) ==> Clean() && Resumes(old(stepAddr))
      ensures !ok || !old(stepActive) ==> mem == old(mem) && regs == old(regs)
    {
      if !stepActive {
        return true;
      }
      ok := WriteMemory(stepAddr, [stepByte]);
      if !ok {
        stepActive := false;
        return false;
      }
      OneByte(old(mem), stepAddr, stepByte);
      assert !old(failed) ==> mem == program;
      if shared.Some? {
        CounterMeans(shared.value, regs.cs % TWO16, stepAddr);
      }
      if isLx {
        regs := regs.(eip := stepAddr);
      } else if shared.Some? {
        regs := regs.(eip := (stepAddr - shared.value[regs.cs % TWO16 / 8]) % TWO32);
      } else {
        regs := regs.(eip := stepAddr % TWO16);
      }
      stepActive := false;
    }

    /** handleStepOverBreakpoint. */
    method HandleStepOver() returns (ok: bool)
      requires Valid()
      modifies this`mem, this`regs, this`overActive, this`failed
      ensures Valid() && (ok ==> !overActive) && |mem| == old(|mem|) && regs.cs == old(regs.cs)
      ensures failed == (old(failed) || !ok)
      ensures ok && old(overActive) ==> Clean() && Resumes(old(overAddr))
      ensures !ok || !old(overActive) ==> mem == old(mem) && regs == old(regs)
    {
      if !overActive {
        return true;
      }
      ok := WriteMemory(overAddr, [overByte]);
      if !ok {
        return false;
      }
      OneByte(old(mem), overAddr, overByte);
      assert !old(failed) ==> mem == program;
      if shared.Some? {
        CounterMeans(shared.value, regs.cs % TWO16, overAddr);
      }
      if isLx {
        regs := regs.(eip := overAddr);
      } else if shared.Some? {
        regs := regs.(eip := (overAddr - shared.value[regs.cs % TWO16 / 8]) % TWO32);
      } else {
        regs := regs.(eip := overAddr % TWO16);
      }
      overActive := false;
      ok := true;
    }

    // Commands.

    /** The continue command's own handling of a step-over breakpoint, which does not look at failures. */
    method StopOver()
      requires Valid() && overActive
      modifies this`mem, this`regs, this`overActive, this`failed
      ensures Valid() && !overActive && |mem| == old(|mem|) && regs.cs == old(regs.cs) && (old(failed) ==> failed)
      ensures !failed ==> Clean()
      ensures !isLx && shared.Some? ==> (overAddr < TWO32 ==> Resumes(overAddr))
      ensures isLx || shared.None? ==> regs.eip == overAddr
    {
      var ok := WriteMemory(overAddr, [overByte]);
      if ok {
        OneByte(old(mem), overAddr, overByte);
      }
      assert !failed ==> mem == program;
      if !isLx && shared.Some? {
        if overAddr < TWO32 {
          CounterMeans(shared.value, regs.cs % TWO16, overAddr);
        }
        regs := regs.(eip := (overAddr - shared.value[regs.cs % TWO16 / 8]) % TWO32);
      } else {
        regs := regs.(eip := overAddr);
      }
      overActive := false;
    }

    /** c: continue until the next stop; a signal other than SIGTRAP is delivered, and the debuggee waited for again. */
    method DoContinue(stops: seq<Stop>)
      requires Clean() && running
      modifies this
      ensures Valid() && |mem| == old(|mem|) && (running ==> Clean())
      ensures var first, second := StatusAt(stops, 0), StatusAt(stops, 1);
              !running <==> first == Exited || first == Signaled
                            || (first.Stopped? && first.signal != SIGTRAP && second == Exited)
    {
      var status, rest := Wait(stops);
      if status.Stopped? {
        if status.signal == SIGTRAP {
          if stepActive {
            var _ := HandleSoftwareStep();
          }
          if overActive {
            StopOver();
          }
        } else {
          status, rest := Wait(rest);
          if status == Exited {
            running := false;
          }
        }
      } else if status == Exited || status == Signaled {
        running := false;
      }
    }

    /** s: one instruction. */
    method DoStep(next: nat, stops: seq<Stop>)
      requires Clean() && running
      modifies this
      ensures Valid() && |mem| == old(|mem|) && (running ==> Clean())
      ensures isLx || shared.None? ==> (running <==> TrapsFirst(stops))
      ensures !isLx && shared.Some? && running ==>
        && StatusAt(stops, 0).Stopped?
        && (StatusAt(stops, 0) == Stopped(SIGTRAP) || StatusAt(stops, 1) == Stopped(SIGTRAP))
        && (!failed ==> Resumes(next))
    {
      if !isLx && shared.Some? {
        var ok := DoSoftwareStep(next);
        if !ok {
          running := false;
        } else {
          var status, rest := Wait(stops);
          if status.Stopped? {
            if status.signal == SIGTRAP {
              var _ := HandleSoftwareStep();
            } else {
              status, rest := Wait(rest);
              if status == Stopped(SIGTRAP) {
                var _ := HandleSoftwareStep();
              } else {
                running := false;
              }
            }
          } else {
            running := false;
          }
        }
      } else {
        var trapped := WaitForTrap(stops);
        if !trapped {
          running := false;
        }
      }
    }

    /** p: one instruction, calls in one go. */
    method DoOver(next: nat, instruction: Decoded, stops: seq<Stop>)
      requires Clean() && running
      modifies this
      ensures Valid() && |mem| == old(|mem|) && (running ==> Clean())
      ensures running <==> TrapsFirst(stops)
    {
      var _ := DoStepOver(next, instruction);
      var trapped := WaitForTrap(stops);
      if !trapped {
        running := false;
      } else {
        if overActive {
          var _ := HandleStepOver();
        }
        if stepActive {
          var _ := HandleSoftwareStep();
        }
      }
    }

    method HandleCommand(command: Command)
      requires Clean() && running
      modifies this
      ensures Valid() && |mem| == old(|mem|) && (running ==> Clean())
    {
      match command {
        case Continue(stops) => DoContinue(stops);
        case Step(next, stops) => DoStep(next, stops);
        case Over(next, instruction, stops) => DoOver(next, instruction, stops);
        case Quit => running := false;
        case Other =>
      }
    }

    /** The text mode loop: at every prompt with the debuggee running, no breakpoint is armed and no byte patched. */
    method TextMode(commands: seq<Command>)
      requires Clean() && running
      modifies this
      ensures Valid() && (running ==> Clean())
    {
      var i := 0;
      while running && i < |commands|
        invariant Valid() && (running ==> Clean())
        decreases |commands| - i
      {
        HandleCommand(commands[i]);
        i := i + 1;
      }
    }
  }

  /** Writing one byte, and taking it back. */
  lemma OneByte(mem: Memory, addr: nat, b: bv8)
    requires addr < |mem|
    ensures mem[..addr] + [b] + mem[addr + 1..] == mem[addr := b]
    ensures forall original: Memory :: |original| == |mem| && original[addr] == b && mem == original[addr := INT3]
              ==> mem[addr := b] == original
  {
  }

  lemma OneMore(mem: Memory, addr: nat, buf: seq<bv8>, i: nat)
    requires i < |buf| && addr + i < |mem|
    ensures (mem[..addr] + buf[..i] + mem[addr + i..])[addr + i := buf[i]]
            == mem[..addr] + buf[..i + 1] + mem[addr + i + 1..]
    ensures i == 0 ==> mem[..addr] + buf[..i] + mem[addr + i..] == mem
  {
  }
}
