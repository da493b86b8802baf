/** How the two halves fit: the interpreter's decode inverts the
    assembler's encode, and running assembled bytecode is running the
    instruction list it came from. */
module RoundTrip {
  import opened Bits
  import opened Isa
  import opened Assembler
  import opened Machine

  /** The low 4 bits and the next field of a word, together, are the word
      cut to 4 + width bits. */
  lemma ModSplit(w: nat, p: nat)
    requires p > 0
    ensures w % (16 * p) == w % 16 + 16 * ((w / 16) % p)
  {
    var q, r := w / 16, w % 16;
    var k, t := q / p, q % p;
    assert w == 16 * q + r;
    assert q == k * p + t;
    assert w == k * (16 * p) + (16 * t + r);
    DivModUnique(w, 16 * p, k, 16 * t + r);
  }

  /** Decoding the 3 bytes of any encodable instruction gives it back. */
  lemma DecodeEncode(i: Instr)
    requires InRange(i)
    ensures EncodeBytes(i).Ok?
    ensures Decode(FromBytes3(EncodeBytes(i).value)) == Ok(i)
  {
    Pow2Values();
    var op: nat := Operand(i);
    var w := FromBytes3(EncodeBytes(i).value);
    assert w == Opcode(i) + 16 * op;
    DivModUnique(w, 16, op, Opcode(i));
    DivModUnique(op, Pow2(OperandBits(i)), 0, op);
  }

  /** Every word decodes to an encodable instruction, or to an unknown
      opcode; encoding what was decoded keeps the tag and the operand field
      and clears every bit above them. */
  lemma EncodeDecode(w: nat)
    requires Decode(w).Ok?
    ensures Encode(Decode(w).value).Ok?
    ensures Encode(Decode(w).value).value == w % Pow2(OpcodeBits + OperandBits(Decode(w).value))
  {
    Pow2Values();
    var i := Decode(w).value;
    assert Pow2(OpcodeBits + OperandBits(i)) == 16 * Pow2(OperandBits(i)) by {
      assert Pow2(4 + 0) == 16 * Pow2(0);
    }
    ModSplit(w, Pow2(OperandBits(i)));
    if i.Write? {
      assert (w / 16) % 1 == 0;
    }
  }

  /** The instruction list executed directly, with the pc each step
      would have in the bytecode: the reference the bytecode run is held to. */
  function Interpret(prog: seq<Instr>, k: nat, s: VmState): Final
    decreases |prog| - k
  {
    if k >= |prog| then Final(s, 3 * k, Finished)
    else
      match Exec(prog[k], s)
      case Underflow(s') => Final(s', 3 * k, StackUnderflow)
      case Next(s') => Interpret(prog, k + 1, s')
  }

  /** One successful step of the reference execution. */
  lemma InterpretStep(prog: seq<Instr>, k: nat, s: VmState, s': VmState)
    requires k < |prog| && Exec(prog[k], s) == Next(s')
    ensures Interpret(prog, k, s) == Interpret(prog, k + 1, s')
  {
  }

  /** `code` holds the encodings of `prog`, 3 bytes each, in order. */
  predicate Encodes(code: seq<byte>, prog: seq<Instr>)
  {
    && |code| == 3 * |prog|
    && forall j :: 0 <= j < |prog| ==> EncodeBytes(prog[j]) == Ok(code[3 * j .. 3 * j + 3])
  }

  /** The word at instruction slot j is an instruction's encoding when the
      little-endian value of its 3 bytes is the instruction's packed word. */
  lemma WordAt(code: seq<byte>, j: nat, i: Instr)
    requires InRange(i) && 3 * j + 3 <= |code|
    requires code[3 * j] as int + 256 * (code[3 * j + 1] as int) + 65536 * (code[3 * j + 2] as int)
             == Opcode(i) + 16 * Operand(i)
    ensures EncodeBytes(i) == Ok(code[3 * j .. 3 * j + 3])
  {
    var slice := code[3 * j .. 3 * j + 3];
    var b := EncodeBytes(i).value;
    var w := Encode(i).value;
    BytesRoundTrip(w, slice);
    assert FromBytes3(slice) == w;
  }

  /** Every slot of `code` decodes to the matching instruction of `prog`. */
  predicate Decodes(code: seq<byte>, prog: seq<Instr>)
  {
    && |code| == 3 * |prog|
    && forall j :: 0 <= j < |prog| ==> Decode(Fetch(code, 3 * j)) == Ok(prog[j])
  }

  /** Bytecode that encodes `prog` decodes, slot by slot, to `prog`. */
  lemma EncodesDecodes(code: seq<byte>, prog: seq<Instr>)
    requires Encodes(code, prog)
    ensures Decodes(code, prog)
  {
    forall j | 0 <= j < |prog| ensures Decode(Fetch(code, 3 * j)) == Ok(prog[j]) {
      var b := code[3 * j .. 3 * j + 3];
      assert EncodeBytes(prog[j]) == Ok(b);
      DecodeEncode(prog[j]);
    }
  }

  /** The reference execution never stops on an unknown opcode. */
  lemma {:induction false} InterpretNeverBad(prog: seq<Instr>, k: nat, s: VmState)
    ensures !Interpret(prog, k, s).halt.BadOpcode?
    decreases |prog| - k
  {
    if k < |prog| {
      match Exec(prog[k], s)
      case Underflow(_) =>
      case Next(s') => InterpretNeverBad(prog, k + 1, s');
    }
  }

  /** Running bytecode that encodes a list of instructions, from
      instruction k on, does what the list does: same final state, same
      stopping point, same reason. */
  lemma {:induction false} RunEncoded(code: seq<byte>, prog: seq<Instr>, k: nat, s: VmState)
    requires Decodes(code, prog) && k <= |prog|
    ensures Run(code, 3 * k, s) == Interpret(prog, k, s)
    decreases |prog| - k
  {
    var pc := 3 * k;
    if k < |prog| {
      assert Decode(Fetch(code, pc)) == Ok(prog[k]);
      match Exec(prog[k], s)
      case Underflow(s') =>
        assert Run(code, pc, s) == Final(s', pc, StackUnderflow);
      case Next(s') =>
        assert Run(code, pc, s) == Run(code, pc + 3, s');
        assert pc + 3 == 3 * (k + 1);
        RunEncoded(code, prog, k + 1, s');
    } else {
      assert pc + 2 >= |code|;
    }
  }

  /** Bytecode that encodes an instruction list never meets an unknown opcode. */
  lemma EncodedNeverBad(code: seq<byte>, prog: seq<Instr>, s: VmState)
    requires Encodes(code, prog)
    ensures !Run(code, 0, s).halt.BadOpcode?
  {
    EncodesDecodes(code, prog);
    RunEncoded(code, prog, 0, s);
    InterpretNeverBad(prog, 0, s);
  }

  /** The instructions a successfully checked record list stands for. */
  function Lowered(recs: seq<Record>): (prog: seq<Instr>)
    requires forall k :: 0 <= k < |recs| ==> Lower(recs[k]).Ok?
    ensures |prog| == |recs|
    ensures forall k :: 0 <= k < |recs| ==> Lower(recs[k]) == Ok(prog[k])
  {
    seq(|recs|, k requires 0 <= k < |recs| => Lower(recs[k]).value)
  }

  /** End to end: when the assembler accepts a record list, interpreting
      the bytecode it produces is executing the listed instructions. */
  lemma AssembleThenRun(recs: seq<Record>, s: VmState)
    requires Assemble(recs).Ok?
    ensures forall k :: 0 <= k < |recs| ==> Lower(recs[k]).Ok?
    ensures Run(Assemble(recs).value, 0, s) == Interpret(Lowered(recs), 0, s)
  {
    AssembleLayout(recs);
    var prog := Lowered(recs);
    var code := Assemble(recs).value;
    forall j | 0 <= j < |prog|
      ensures EncodeBytes(prog[j]) == Ok(code[3 * j .. 3 * j + 3])
    {
      assert EncodeRecord(recs[j]) == Ok(code[3 * j .. 3 * j + 3]);
    }
    EncodesDecodes(code, prog);
    RunEncoded(code, prog, 0, s);
  }

  // ---------------------------------------------------------- scenarios

  /** The listing of the store-and-reload scenario and its bytecode. */
  const StoreAndReloadProg: seq<Instr> := [Load(5), Load(100), Write, Load(5), Read(0)]
  const StoreAndReloadCode: seq<byte> :=
    [0x51, 0x00, 0x00, 0x41, 0x06, 0x00, 0x03, 0x00, 0x00, 0x51, 0x00, 0x00, 0x0F, 0x00, 0x00]

  lemma StoreAndReloadEncodes()
    ensures Encodes(StoreAndReloadCode, StoreAndReloadProg)
  {
    var code, prog := StoreAndReloadCode, StoreAndReloadProg;
    forall j | 0 <= j < |prog| ensures EncodeBytes(prog[j]) == Ok(code[3 * j .. 3 * j + 3]) {
      WordAt(code, j, prog[j]);
    }
  }

  lemma StoreAndReloadSteps(m0: seq<int>)
    requires |m0| > 5
    ensures Interpret(StoreAndReloadProg, 0, VmState(m0, [])) ==
      Final(VmState(WriteCell(m0, 5, 100), [100]), 15, Finished)
  {
    var prog := StoreAndReloadProg;
    var m1 := WriteCell(m0, 5, 100);
    ExecLoad(m0, [], 5);
    InterpretStep(prog, 0, VmState(m0, []), VmState(m0, [5]));
    ExecLoad(m0, [5], 100);
    InterpretStep(prog, 1, VmState(m0, [5]), VmState(m0, [5, 100]));
    ExecWrite(m0, [], 5, 100);
    InterpretStep(prog, 2, VmState(m0, [5, 100]), VmState(m1, []));
    ExecLoad(m1, [], 5);
    InterpretStep(prog, 3, VmState(m1, []), VmState(m1, [5]));
    ExecRead(m1, [], 5, 0);
    InterpretStep(prog, 4, VmState(m1, [5]), VmState(m1, [100]));
  }

  /** Load(5), Load(100), Write, Load(5), Read(0) on any memory with a
      cell 5: 100 is stored at address 5 and read back onto the stack. */
  lemma StoreAndReload(m0: seq<int>)
    requires |m0| > 5
    ensures var r := Run(StoreAndReloadCode, 0, VmState(m0, []));
      r.halt == Finished && r.pc == 15 && r.s.stack == [100] &&
      r.s.memory == m0[5 := 100]
  {
    StoreAndReloadEncodes();
    EncodesDecodes(StoreAndReloadCode, StoreAndReloadProg);
    RunEncoded(StoreAndReloadCode, StoreAndReloadProg, 0, VmState(m0, []));
    StoreAndReloadSteps(m0);
  }

  /** The listing of the comparison scenario and its bytecode. */
  const CompareProg: seq<Instr> := [Load(50), Load(10), Load(3), Gt(0)]
  const CompareCode: seq<byte> :=
    [0x21, 0x03, 0x00, 0xA1, 0x00, 0x00, 0x31, 0x00, 0x00, 0x05, 0x00, 0x00]

  lemma CompareEncodes()
    ensures Encodes(CompareCode, CompareProg)
  {
    var code, prog := CompareCode, CompareProg;
    forall j | 0 <= j < |prog| ensures EncodeBytes(prog[j]) == Ok(code[3 * j .. 3 * j + 3]) {
      WordAt(code, j, prog[j]);
    }
  }

  lemma CompareSteps(m0: seq<int>)
    requires |m0| > 50
    ensures Interpret(CompareProg, 0, VmState(m0, [])) ==
      Final(VmState(WriteCell(m0, 50, 1), []), 12, Finished)
  {
    var prog := CompareProg;
    ExecLoad(m0, [], 50);
    InterpretStep(prog, 0, VmState(m0, []), VmState(m0, [50]));
    ExecLoad(m0, [50], 10);
    InterpretStep(prog, 1, VmState(m0, [50]), VmState(m0, [50, 10]));
    ExecLoad(m0, [50, 10], 3);
    InterpretStep(prog, 2, VmState(m0, [50, 10]), VmState(m0, [50, 10, 3]));
    ExecGt(m0, [], 50, 10, 3, 0);
    InterpretStep(prog, 3, VmState(m0, [50, 10, 3]), VmState(WriteCell(m0, 50, 1), []));
  }

  /** Pushing addr 50, val2 10 and val1 3, then Gt(0), stores 1 at 50,
      because 10 > 3, and leaves the stack empty. */
  lemma GreaterThanStores(m0: seq<int>)
    requires |m0| > 50
    ensures var r := Run(CompareCode, 0, VmState(m0, []));
      r.halt == Finished && r.pc == 12 && r.s.stack == [] && r.s.memory == m0[50 := 1]
  {
    CompareEncodes();
    EncodesDecodes(CompareCode, CompareProg);
    RunEncoded(CompareCode, CompareProg, 0, VmState(m0, []));
    CompareSteps(m0);
  }

  /** The source's four test vectors, run in order. */
  const VectorsProg: seq<Instr> := [Load(267), Read(34), Write, Gt(27)]
  const VectorsCode: seq<byte> :=
    [0xB1, 0x10, 0x00, 0x2F, 0x02, 0x00, 0x03, 0x00, 0x00, 0xB5, 0x01, 0x00]

  lemma VectorsEncode()
    ensures Encodes(VectorsCode, VectorsProg)
  {
    var code, prog := VectorsCode, VectorsProg;
    forall j | 0 <= j < |prog| ensures EncodeBytes(prog[j]) == Ok(code[3 * j .. 3 * j + 3]) {
      WordAt(code, j, prog[j]);
    }
  }

  /** Run in order on a machine whose cell 301 holds 0, the four test vectors
      underflow at the write: read leaves one value on the stack, write pops
      it and then finds the stack empty; memory is untouched. */
  lemma TestVectorsUnderflow(m0: seq<int>)
    requires |m0| > 301 && m0[301] == 0
    ensures var r := Run(VectorsCode, 0, VmState(m0, []));
      r.halt == StackUnderflow && r.pc == 6 && r.s.stack == [] && r.s.memory == m0
  {
    var prog := VectorsProg;
    VectorsEncode();
    EncodesDecodes(VectorsCode, prog);
    RunEncoded(VectorsCode, prog, 0, VmState(m0, []));
    ExecLoad(m0, [], 267);
    InterpretStep(prog, 0, VmState(m0, []), VmState(m0, [267]));
    ExecRead(m0, [], 267, 34);
    assert ReadCell(m0, 267 + 34) == 0;
    InterpretStep(prog, 1, VmState(m0, [267]), VmState(m0, [0]));
    assert Exec(Write, VmState(m0, [0])) == Underflow(VmState(m0, []));
  }

  /** The scenarios on a fresh machine of any size above 301 cells (the
      default is 1024). */
  lemma FreshScenarios(size: nat)
    requires size > 301
    ensures var r := Run(StoreAndReloadCode, 0, Fresh(size));
      r.halt == Finished && r.s.stack == [100] && r.s.memory == Fresh(size).memory[5 := 100]
    ensures var r := Run(CompareCode, 0, Fresh(size));
      r.halt == Finished && r.s.stack == [] && r.s.memory == Fresh(size).memory[50 := 1]
    ensures var r := Run(VectorsCode, 0, Fresh(size));
      r.halt == StackUnderflow && r.pc == 6 && r.s == Fresh(size)
  {
    var s := Fresh(size);
    var m0 := s.memory;
    assert s == VmState(m0, []);
    assert m0[301] == 0;
    StoreAndReload(m0);
    GreaterThanStores(m0);
    TestVectorsUnderflow(m0);
  }
}
