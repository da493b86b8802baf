/** The interpreter: the virtual machine state (a fixed-size memory and an
    operand stack), the decode of a 3-byte word, the effect of each
    instruction, the fetch-decode-execute loop and the memory dump. */
module Machine {
  import opened Bits
  import opened Isa

  const MemorySize: nat := 1024
  const InitialMemoryValue: int := 0

  // ---------------------------------------------------------------- decode

  /** The fields `execute` cuts out of every word: the opcode (bits 0-3),
      the 18-bit value and the 6-bit offset above it. */
  datatype Fields = Fields(opcode: nat, value: nat, offset: nat)

  function DecodeFields(w: nat): (f: Fields)
    ensures f.opcode == w % 16 && f.opcode < 16
    ensures f.value == (w / 16) % 262144
    ensures f.offset == (w / 16) % 64 && f.offset == f.value % 64
  {
    Pow2Values();
    AndMask(w, OpcodeBits);
    AndMask(Shr(w, OpcodeBits), ConstBits);
    AndMask(Shr(w, OpcodeBits), OffsetBits);
    SmallerModulus(w / 16);
    Fields(BitAnd(w, Mask(OpcodeBits)),
           BitAnd(Shr(w, OpcodeBits), Mask(ConstBits)),
           BitAnd(Shr(w, OpcodeBits), Mask(OffsetBits)))
  }

  /** The low 6 bits of x are the low 6 bits of its low 18 bits. */
  lemma SmallerModulus(x: nat)
    ensures (x % 262144) % 64 == x % 64
  {
    var q := x / 262144;
    var r := x % 262144;
    assert x == (q * 4096) * 64 + r;
    DivModUnique(x, 64, q * 4096 + r / 64, r % 64);
  }

  datatype DecodeError = UnknownOpcode(opcode: nat)

  /** The opcode dispatch of `execute`: tag 1 is load with the 18-bit value,
      15 is read and 5 is gt with the 6-bit offset, 3 is write; every other
      tag is unknown. */
  function Decode(w: nat): (r: Result<Instr, DecodeError>)
    ensures r.Ok? <==> w % 16 in {1, 3, 5, 15}
    ensures r.Err? ==> r.error == UnknownOpcode(w % 16)
    ensures r.Ok? ==> Opcode(r.value) == w % 16 && InRange(r.value)
    ensures r.Ok? && r.value.Load? ==> r.value.c == (w / 16) % 262144
    ensures r.Ok? && (r.value.Read? || r.value.Gt?) ==> Operand(r.value) == (w / 16) % 64
  {
    var f := DecodeFields(w);
    Pow2Values();
    if f.opcode == LoadOpcode then Ok(Load(f.value))
    else if f.opcode == ReadOpcode then Ok(Read(f.offset))
    else if f.opcode == WriteOpcode then Ok(Write)
    else if f.opcode == GtOpcode then Ok(Gt(f.offset))
    else Err(UnknownOpcode(f.opcode))
  }

  /** The word at pc: `int.from_bytes(bytecode[pc:pc+3], "little")`. */
  function Fetch(code: seq<byte>, pc: nat): nat
    requires pc + 3 <= |code|
  {
    FromBytes3(code[pc .. pc + 3])
  }

  // ------------------------------------------------- state as a value

  /** The machine state as a value: the memory cells and the stack,
      top of stack last. */
  datatype VmState = VmState(memory: seq<int>, stack: seq<int>)

  /** A fresh machine: `size` cells holding the initial value, an empty stack. */
  function Fresh(size: nat): (s: VmState)
    ensures |s.memory| == size && s.stack == []
    ensures forall a :: 0 <= a < size ==> s.memory[a] == InitialMemoryValue
  {
    VmState(seq(size, _ => InitialMemoryValue), [])
  }

  /** `pop`: the top value and the rest of the stack, or None on an empty
      stack (the source raises "Stack underflow"). */
  function PopValue(st: seq<int>): (r: Option<(int, seq<int>)>)
    ensures r.None? <==> st == []
    ensures r.Some? ==> r.value.1 + [r.value.0] == st
  {
    if st == [] then None else Some((st[|st| - 1], st[..|st| - 1]))
  }

  /** Popping what was just pushed gives it back and restores the stack. */
  lemma PushPop(st: seq<int>, v: int)
    ensures PopValue(st + [v]) == Some((v, st))
  {
    assert (st + [v])[..|st|] == st;
  }

  /** `read_memory`: the cell at an address inside memory, 0 outside. */
  function ReadCell(mem: seq<int>, a: int): (v: int)
    ensures 0 <= a < |mem| ==> v == mem[a]
    ensures !(0 <= a < |mem|) ==> v == 0
  {
    if 0 <= a < |mem| then mem[a] else 0
  }

  /** `write_memory`: an address inside memory gets the value and nothing
      else changes; an address outside changes nothing. */
  function WriteCell(mem: seq<int>, a: int, v: int): (r: seq<int>)
    ensures |r| == |mem|
    ensures forall k :: 0 <= k < |r| ==> r[k] == (if k == a then v else mem[k])
    ensures !(0 <= a < |mem|) ==> r == mem
  {
    if 0 <= a < |mem| then mem[a := v] else mem
  }

  // ------------------------------------------------------- one step

  /** How many values an instruction pops and pushes. */
  function Pops(i: Instr): nat
  {
    match i
    case Load(_) => 0
    case Read(_) => 1
    case Write => 2
    case Gt(_) => 3
  }

  function Pushes(i: Instr): nat
  {
    match i
    case Load(_) => 1
    case Read(_) => 1
    case Write => 0
    case Gt(_) => 0
  }

  /** The outcome of one instruction: the next state, or the state left
      behind when a pop found the stack empty (the pops already done stay). */
  datatype Step = Next(s: VmState) | Underflow(s: VmState)

  /** The effect of one instruction, pop by pop in the source's order:
      load pushes c; read pops addr and pushes `read_memory(addr + o)`;
      write pops value, then addr, and writes value at addr; gt pops val1,
      val2, addr and writes 1 if val2 > val1 else 0 at addr + o. */
  function Exec(i: Instr, s: VmState): (r: Step)
    ensures r.Underflow? <==> |s.stack| < Pops(i)
    ensures r.Underflow? ==> r.s.stack == [] && r.s.memory == s.memory
    ensures r.Next? ==> |r.s.stack| == |s.stack| - Pops(i) + Pushes(i)
    ensures r.Next? ==> r.s.stack[..|s.stack| - Pops(i)] == s.stack[..|s.stack| - Pops(i)]
    ensures |r.s.memory| == |s.memory|
    ensures (i.Load? || i.Read?) ==> r.s.memory == s.memory
  {
    var mem := s.memory;
    match i
    case Load(c) =>
      Next(VmState(mem, s.stack + [c]))
    case Read(o) =>
      (match PopValue(s.stack)
       case None => Underflow(s)
       case Some((addr, st)) => Next(VmState(mem, st + [ReadCell(mem, addr + o)])))
    case Write =>
      (match PopValue(s.stack)
       case None => Underflow(s)
       case Some((value, st1)) =>
         match PopValue(st1)
         case None => Underflow(VmState(mem, st1))
         case Some((addr, st2)) => Next(VmState(WriteCell(mem, addr, value), st2)))
    case Gt(o) =>
      match PopValue(s.stack)
      case None => Underflow(s)
      case Some((val1, st1)) =>
        match PopValue(st1)
        case None => Underflow(VmState(mem, st1))
        case Some((val2, st2)) =>
          match PopValue(st2)
          case None => Underflow(VmState(mem, st2))
          case Some((addr, st3)) =>
            Next(VmState(WriteCell(mem, addr + o, if val2 > val1 then 1 else 0), st3))
  }

  /** The instruction table, read off a stack written out with its top
      values last: what each instruction leaves on the stack and in memory. */
  lemma ExecLoad(mem: seq<int>, rest: seq<int>, c: int)
    ensures Exec(Load(c), VmState(mem, rest)) == Next(VmState(mem, rest + [c]))
  {
  }

  lemma ExecRead(mem: seq<int>, rest: seq<int>, addr: int, o: int)
    ensures Exec(Read(o), VmState(mem, rest + [addr])) ==
      Next(VmState(mem, rest + [ReadCell(mem, addr + o)]))
  {
    PushPop(rest, addr);
  }

  lemma ExecWrite(mem: seq<int>, rest: seq<int>, addr: int, value: int)
    ensures Exec(Write, VmState(mem, rest + [addr, value])) ==
      Next(VmState(WriteCell(mem, addr, value), rest))
  {
    assert rest + [addr, value] == rest + [addr] + [value];
    PushPop(rest + [addr], value);
    PushPop(rest, addr);
  }

  lemma ExecGt(mem: seq<int>, rest: seq<int>, addr: int, val2: int, val1: int, o: int)
    ensures Exec(Gt(o), VmState(mem, rest + [addr, val2, val1])) ==
      Next(VmState(WriteCell(mem, addr + o, if val2 > val1 then 1 else 0), rest))
  {
    assert rest + [addr, val2, val1] == rest + [addr, val2] + [val1];
    assert rest + [addr, val2] == rest + [addr] + [val2];
    PushPop(rest + [addr, val2], val1);
    PushPop(rest + [addr], val2);
    PushPop(rest, addr);
  }

  // -------------------------------------------------------- the loop

  /** Why the loop stopped: the bytes ran out (fewer than 3 remain), an
      unknown opcode, or a pop on an empty stack. */
  datatype Halt = Finished | BadOpcode(opcode: nat) | StackUnderflow

  datatype Final = Final(s: VmState, pc: nat, halt: Halt)

  /** The specification of `execute` from pc on. */
  function Run(code: seq<byte>, pc: nat, s: VmState): Final
    decreases |code| - pc
  {
    if pc + 2 >= |code| then Final(s, pc, Finished)
    else
      match Decode(Fetch(code, pc))
      case Err(UnknownOpcode(op)) => Final(s, pc, BadOpcode(op))
      case Ok(i) =>
        match Exec(i, s)
        case Underflow(s') => Final(s', pc, StackUnderflow)
        case Next(s') => Run(code, pc + 3, s')
  }

  /** One more instruction keeps the distance a multiple of 3. */
  lemma ThreeMore(a: nat, b: nat)
    requires a + 3 <= b && (b - (a + 3)) % 3 == 0
    ensures (b - a) % 3 == 0
  {
    var d := b - (a + 3);
    DivModUnique(d + 3, 3, d / 3 + 1, 0);
  }

  /** pc only grows, by whole instructions, and does not pass the end. */
  lemma {:induction false} RunPc(code: seq<byte>, pc: nat, s: VmState)
    ensures pc <= Run(code, pc, s).pc && (Run(code, pc, s).pc - pc) % 3 == 0
    ensures pc <= |code| ==> Run(code, pc, s).pc <= |code|
    decreases |code| - pc
  {
    if pc + 2 < |code| {
      match Decode(Fetch(code, pc))
      case Err(_) =>
      case Ok(i) =>
        match Exec(i, s)
        case Underflow(_) =>
        case Next(s') =>
          assert Run(code, pc, s) == Run(code, pc + 3, s');
          RunPc(code, pc + 3, s');
          ThreeMore(pc, Run(code, pc + 3, s').pc);
    }
  }

  /** Memory keeps its size through a run. */
  lemma {:induction false} RunMemorySize(code: seq<byte>, pc: nat, s: VmState)
    ensures |Run(code, pc, s).s.memory| == |s.memory|
    decreases |code| - pc
  {
    if pc + 2 < |code| {
      match Decode(Fetch(code, pc))
      case Err(_) =>
      case Ok(i) =>
        match Exec(i, s)
        case Underflow(_) =>
        case Next(s') => RunMemorySize(code, pc + 3, s');
    }
  }

  /** How a run stops: normally exactly when fewer than 3 bytes remain at
      the final pc; on an unknown opcode only at a word whose tag is
      unknown; after an underflow with an empty stack. */
  lemma {:induction false} RunHalt(code: seq<byte>, pc: nat, s: VmState)
    ensures var r := Run(code, pc, s);
      && (r.halt.Finished? <==> r.pc + 3 > |code|)
      && (r.halt.BadOpcode? ==>
            r.pc + 3 <= |code| && r.halt.opcode !in {1, 3, 5, 15} && Fetch(code, r.pc) % 16 == r.halt.opcode)
      && (r.halt.StackUnderflow? ==> r.pc + 3 <= |code| && r.s.stack == [])
    decreases |code| - pc
  {
    if pc + 2 < |code| {
      match Decode(Fetch(code, pc))
      case Err(_) =>
      case Ok(i) =>
        match Exec(i, s)
        case Underflow(_) =>
        case Next(s') => RunHalt(code, pc + 3, s');
    }
  }

  /** A run from 0 ends on a multiple of 3; when it runs out of bytes it
      stops at the last complete instruction boundary, so a 1- or 2-byte
      tail is never executed. */
  lemma RunFromStart(code: seq<byte>, s: VmState)
    ensures Run(code, 0, s).pc % 3 == 0
    ensures Run(code, 0, s).halt.Finished? ==> Run(code, 0, s).pc == |code| - |code| % 3
  {
    RunPc(code, 0, s);
    RunHalt(code, 0, s);
    var p := Run(code, 0, s).pc;
    if Run(code, 0, s).halt.Finished? {
      DivModUnique(|code|, 3, p / 3, |code| - p);
    }
  }

  /** An unknown opcode stops the run at that pc, with the state untouched. */
  lemma UnknownOpcodeHalts(code: seq<byte>, pc: nat, s: VmState)
    requires pc + 3 <= |code| && Fetch(code, pc) % 16 !in {1, 3, 5, 15}
    ensures Run(code, pc, s) == Final(s, pc, BadOpcode(Fetch(code, pc) % 16))
  {
  }

  // ------------------------------------------------- the machine object

  /** `UVM`: the memory list is fixed in size and updated in place; the
      stack grows and shrinks at its end. */
  class UVM {
    const memory: array<int>
    var stack: seq<int>

    /** `__init__`: `memorySize` cells holding 0 and an empty stack. */
    constructor (memorySize: nat := MemorySize)
      ensures memory.Length == memorySize && fresh(memory)
      ensures State() == Fresh(memorySize)
    {
      memory := new int[memorySize](_ => InitialMemoryValue);
      stack := [];
    }

    /** The state as a value. */
    function State(): VmState
      reads this, memory
    {
      VmState(memory[..], stack)
    }

    method Push(v: int)
      modifies this`stack
      ensures stack == old(stack) + [v]
    {
      stack := stack + [v];
    }

    /** `pop`: None (the source's "Stack underflow") leaves the stack as it was. */
    method Pop() returns (r: Option<int>)
      modifies this`stack
      ensures r.None? <==> old(stack) == []
      ensures r.None? ==> stack == old(stack)
      ensures r.Some? ==> PopValue(old(stack)) == Some((r.value, stack))
    {
      if stack == [] {
        return None;
      }
      r := Some(stack[|stack| - 1]);
      stack := stack[..|stack| - 1];
    }

    /** `read_memory`: reads never change the machine. */
    method ReadMemory(address: int) returns (v: int)
      ensures 0 <= address < memory.Length ==> v == memory[address]
      ensures !(0 <= address < memory.Length) ==> v == 0
      ensures v == ReadCell(memory[..], address)
    {
      if 0 <= address < memory.Length {
        v := memory[address];
      } else {
        v := 0;
      }
    }

    /** `write_memory`: one cell changes when the address is inside memory,
        none otherwise. */
    method WriteMemory(address: int, value: int)
      modifies memory
      ensures memory[..] == WriteCell(old(memory[..]), address, value)
    {
      if 0 <= address < memory.Length {
        memory[address] := value;
      }
    }
  }

  /** The body of one pass of `execute` for a decoded instruction: the pops,
      the memory access and the push, done on the machine object. */
  method ExecuteInstr(instr: Instr, vm: UVM) returns (ok: bool)
    modifies vm`stack, vm.memory
    ensures ok ==> Exec(instr, old(vm.State())) == Next(vm.State())
    ensures !ok ==> Exec(instr, old(vm.State())) == Underflow(vm.State())
  {
    ok := false;
    match instr {
    case Load(c) =>
      vm.Push(c);
    case Read(o) =>
      var addr := vm.Pop();
      if addr.None? {
        return;
      }
      var value := vm.ReadMemory(addr.value + o);
      vm.Push(value);
    case Write =>
      var value := vm.Pop();
      if value.None? {
        return;
      }
      var addr := vm.Pop();
      if addr.None? {
        return;
      }
      vm.WriteMemory(addr.value, value.value);
    case Gt(o) =>
      var val1 := vm.Pop();
      if val1.None? {
        return;
      }
      var val2 := vm.Pop();
      if val2.None? {
        return;
      }
      var addr := vm.Pop();
      if addr.None? {
        return;
      }
      var result := if val2.value > val1.value then 1 else 0;
      vm.WriteMemory(addr.value + o, result);
    }
    ok := true;
  }

  /** `execute`: fetch 3 bytes at pc, decode, apply, advance pc by 3; stop
      when fewer than 3 bytes remain or on an unknown opcode; an underflow
      ends the run where it happens, keeping the pops already done. */
  method Execute(code: seq<byte>, vm: UVM) returns (pc: nat, halt: Halt)
    modifies vm`stack, vm.memory
    ensures Final(vm.State(), pc, halt) == Run(code, 0, old(vm.State()))
  {
    pc := 0;
    halt := Finished;
    while pc < |code|
      invariant Run(code, pc, vm.State()) == Run(code, 0, old(vm.State()))
      decreases |code| - pc
    {
      if pc + 2 >= |code| {
        break;
      }
      var word := FromBytes3(code[pc .. pc + 3]);
      match Decode(word)
      case Err(UnknownOpcode(op)) =>
        halt := BadOpcode(op);
        return;
      case Ok(instr) =>
        var ok := ExecuteInstr(instr, vm);
        if !ok {
          halt := StackUnderflow;
          return;
        }
        pc := pc + 3;
    }
  }

  // ------------------------------------------------------ memory dump

  datatype DumpError = InvalidRange(start: int, end: int)

  /** The dump-range check of `main`: both bounds inside the default
      memory and in order, otherwise the run is refused before it starts. */
  function CheckDumpRange(start: int, end: int): (r: Result<(nat, nat), DumpError>)
    ensures r.Ok? <==> 0 <= start < MemorySize && 0 <= end < MemorySize && start <= end
    ensures r.Ok? ==> r.value == (start, end)
    ensures r.Err? ==> r.error == InvalidRange(start, end)
  {
    if start < 0 || end < start || end >= MemorySize then Err(InvalidRange(start, end))
    else Ok((start, end))
  }

  /** The dump `main` builds after the run: every address from start to
      end, cut at the memory's length, mapped to its cell. */
  method Dump(vm: UVM, start: int, end: int) returns (d: map<int, int>)
    requires CheckDumpRange(start, end).Ok?
    ensures forall a :: a in d <==> start <= a <= end && a < vm.memory.Length
    ensures forall a :: a in d ==> d[a] == vm.memory[a]
  {
    d := map[];
    var stop := if end + 1 < vm.memory.Length then end + 1 else vm.memory.Length;
    var addr := start;
    while addr < stop
      invariant start <= addr
      invariant forall a :: a in d <==> start <= a < addr && a < stop
      invariant forall a :: a in d ==> 0 <= a < vm.memory.Length && d[a] == vm.memory[a]
      decreases stop - addr
    {
      d := d[addr := vm.memory[addr]];
      addr := addr + 1;
    }
  }
}
