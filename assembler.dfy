/** The assembler back end: the four instruction encoders and the
    translation of a list of instruction records into bytecode. */
module Assembler {
  import opened Bits
  import opened Isa

  /** The ways a translation fails; in the source each is a `ValueError`
      that aborts the whole translation. */
  datatype AsmError =
    | OperandOutOfRange(value: int, bits: nat)
    | WrongArity(op: string, expected: nat, got: nat)
    | UnknownInstruction(op: string)

  /** An instruction record as the parser produces it: a lower-case
      mnemonic and the list of its integer arguments. */
  datatype Record = Record(op: string, args: seq<int>)

  /** Packs a tag into bits 0-3 and an operand, cut to `bits` bits, from
      bit 4 upwards, the way every encoder does:
      `cmd = 0; cmd |= tag & mask(4); cmd |= (operand & mask(bits)) << 4`. */
  function PackWord(tag: nat, operand: nat, bits: nat): (w: nat)
    requires tag < 16 && operand <= Mask(bits)
    ensures w == tag + 16 * operand
    ensures w % 16 == tag && w / 16 == operand
  {
    var tagField := BitAnd(tag, Mask(OpcodeBits));
    var operandField := BitAnd(operand, Mask(bits));
    Pow2Values();
    MaskOnes(bits);
    AndMask(tag, OpcodeBits);
    DivModUnique(tag, 16, 0, tag);
    assert tagField == tag;
    AndMask(operand, bits);
    DivModUnique(operand, Pow2(bits), 0, operand);
    assert operandField == operand;
    OrZero(tagField);
    OrDisjoint(tagField, operandField, OpcodeBits);
    assert Shl(operandField, OpcodeBits) == 16 * operand;
    DivModUnique(tag + 16 * operand, 16, operand, tag);
    BitOr(BitOr(0, tagField), Shl(operandField, OpcodeBits))
  }

  /** `encode_load`: an 18-bit constant under tag 1. */
  function EncodeLoad(c: int): (r: Result<nat, AsmError>)
    ensures r.Ok? <==> 0 <= c <= 262143
    ensures r.Err? ==> r.error == OperandOutOfRange(c, ConstBits)
    ensures r.Ok? ==> r.value == 1 + 16 * c && r.value < 4194304
  {
    var maxConst := Mask(ConstBits);
    Pow2Values();
    if !(0 <= c <= maxConst) then Err(OperandOutOfRange(c, ConstBits))
    else Ok(PackWord(LoadOpcode, c, ConstBits))
  }

  /** `encode_read`: a 6-bit offset under tag 15. */
  function EncodeRead(o: int): (r: Result<nat, AsmError>)
    ensures r.Ok? <==> 0 <= o <= 63
    ensures r.Err? ==> r.error == OperandOutOfRange(o, OffsetBits)
    ensures r.Ok? ==> r.value == 15 + 16 * o && r.value < 1024
  {
    var maxOffset := Mask(OffsetBits);
    Pow2Values();
    if !(0 <= o <= maxOffset) then Err(OperandOutOfRange(o, OffsetBits))
    else Ok(PackWord(ReadOpcode, o, OffsetBits))
  }

  /** `encode_write`: tag 3 and no operand. */
  function EncodeWrite(): (r: nat)
    ensures r == 3
  {
    Pow2Values();
    AndMask(WriteOpcode, OpcodeBits);
    BitOr(0, BitAnd(WriteOpcode, Mask(OpcodeBits)))
  }

  /** `encode_gt`: a 6-bit offset under tag 5. */
  function EncodeGt(o: int): (r: Result<nat, AsmError>)
    ensures r.Ok? <==> 0 <= o <= 63
    ensures r.Err? ==> r.error == OperandOutOfRange(o, OffsetBits)
    ensures r.Ok? ==> r.value == 5 + 16 * o && r.value < 1024
  {
    var maxOffset := Mask(OffsetBits);
    Pow2Values();
    if !(0 <= o <= maxOffset) then Err(OperandOutOfRange(o, OffsetBits))
    else Ok(PackWord(GtOpcode, o, OffsetBits))
  }

  /** The encoder an instruction is sent to. */
  function Encode(i: Instr): (r: Result<nat, AsmError>)
    ensures r.Ok? <==> InRange(i)
    ensures r.Err? ==> r.error == OperandOutOfRange(Operand(i), OperandBits(i))
    ensures r.Ok? ==> r.value == Opcode(i) + 16 * Operand(i) && r.value < 4194304
  {
    Pow2Values();
    match i
    case Load(c) => EncodeLoad(c)
    case Read(o) => EncodeRead(o)
    case Write => Ok(EncodeWrite())
    case Gt(o) => EncodeGt(o)
  }

  /** An instruction's 3 bytes, `encode_x(...).to_bytes(3, "little")`; the
      word is below 2^22, so the 3-byte conversion never overflows. */
  function EncodeBytes(i: Instr): (r: Result<seq<byte>, AsmError>)
    ensures r.Ok? <==> InRange(i)
    ensures r.Err? ==> r.error == OperandOutOfRange(Operand(i), OperandBits(i))
    ensures r.Ok? ==> |r.value| == 3 && FromBytes3(r.value) == Opcode(i) + 16 * Operand(i)
  {
    match Encode(i)
    case Err(e) => Err(e)
    case Ok(w) => BytesRoundTrip(w, [0, 0, 0]); Ok(ToBytes3(w))
  }

  /** The record an instruction is written as: its mnemonic and its arguments. */
  function ToRecord(i: Instr): Record
  {
    match i
    case Load(c) => Record("load", [c])
    case Read(o) => Record("read", [o])
    case Write => Record("write", [])
    case Gt(o) => Record("gt", [o])
  }

  /** The mnemonic dispatch and arity check of `translate_to_machine_code_bytes`:
      load, read and gt take one argument, write none; any other mnemonic
      is unknown. */
  function Lower(rec: Record): (r: Result<Instr, AsmError>)
    ensures r.Ok? ==> ToRecord(r.value) == rec
    ensures r.Err? && rec.op in {"load", "read", "gt"} ==> r.error == WrongArity(rec.op, 1, |rec.args|)
    ensures r.Err? && rec.op == "write" ==> r.error == WrongArity(rec.op, 0, |rec.args|)
    ensures r.Err? && rec.op !in {"load", "read", "write", "gt"} ==> r.error == UnknownInstruction(rec.op)
  {
    var n := |rec.args|;
    if rec.op == "load" then
      if n != 1 then Err(WrongArity("load", 1, n)) else Ok(Load(rec.args[0]))
    else if rec.op == "read" then
      if n != 1 then Err(WrongArity("read", 1, n)) else Ok(Read(rec.args[0]))
    else if rec.op == "write" then
      if n != 0 then Err(WrongArity("write", 0, n)) else Ok(Write)
    else if rec.op == "gt" then
      if n != 1 then Err(WrongArity("gt", 1, n)) else Ok(Gt(rec.args[0]))
    else
      Err(UnknownInstruction(rec.op))
  }

  /** Lowering is the inverse of writing an instruction as a record, and it
      accepts exactly the records that are so written. */
  lemma LowerIsInverse(i: Instr, rec: Record)
    ensures Lower(ToRecord(i)) == Ok(i)
    ensures Lower(rec).Ok? <==> exists j :: ToRecord(j) == rec
  {
    if Lower(rec).Ok? {
      assert ToRecord(Lower(rec).value) == rec;
    }
    if exists j :: ToRecord(j) == rec {
      var j :| ToRecord(j) == rec;
      assert Lower(ToRecord(j)) == Ok(j);
    }
  }

  /** One record's 3 bytes, or the error that aborts the translation. */
  function EncodeRecord(rec: Record): (r: Result<seq<byte>, AsmError>)
    ensures r.Ok? ==> |r.value| == 3
    ensures r.Ok? <==> Lower(rec).Ok? && InRange(Lower(rec).value)
  {
    match Lower(rec)
    case Err(e) => Err(e)
    case Ok(i) => EncodeBytes(i)
  }

  /** The specification of the translation: the records' encodings
      concatenated in order, or the first error. */
  function Assemble(prog: seq<Record>): Result<seq<byte>, AsmError>
    decreases |prog|
  {
    if prog == [] then Ok([])
    else
      match Assemble(prog[..|prog| - 1])
      case Err(e) => Err(e)
      case Ok(code) =>
        match EncodeRecord(prog[|prog| - 1])
        case Err(e) => Err(e)
        case Ok(b) => Ok(code + b)
  }

  /** A translation succeeds exactly when every record encodes; its output
      has 3 bytes per record, and bytes [3k, 3k+3) are record k's encoding. */
  lemma {:induction false} AssembleLayout(prog: seq<Record>)
    ensures Assemble(prog).Ok? <==> forall k :: 0 <= k < |prog| ==> EncodeRecord(prog[k]).Ok?
    ensures Assemble(prog).Ok? ==>
      |Assemble(prog).value| == 3 * |prog| &&
      forall k :: 0 <= k < |prog| ==> EncodeRecord(prog[k]) == Ok(Assemble(prog).value[3 * k .. 3 * k + 3])
    decreases |prog|
  {
    if prog != [] {
      var n := |prog| - 1;
      var init := prog[..n];
      AssembleLayout(init);
      assert forall k :: 0 <= k < n ==> init[k] == prog[k];
      if Assemble(prog).Ok? {
        var code := Assemble(init).value;
        var b := EncodeRecord(prog[n]).value;
        assert Assemble(prog).value == code + b;
        forall k | 0 <= k < |prog|
          ensures EncodeRecord(prog[k]) == Ok((code + b)[3 * k .. 3 * k + 3])
        {
          ConcatSlot(code, b, k);
        }
      }
    }
  }

  /** Slot k of bytecode extended by one 3-byte word: an old slot, or the new word. */
  lemma ConcatSlot(code: seq<byte>, b: seq<byte>, k: nat)
    requires |b| == 3 && 3 * k <= |code|
    ensures 3 * k + 3 <= |code| ==> (code + b)[3 * k .. 3 * k + 3] == code[3 * k .. 3 * k + 3]
    ensures 3 * k == |code| ==> (code + b)[3 * k .. 3 * k + 3] == b
  {
  }

  /** A failed translation reports the error of the first record that does
      not encode. */
  lemma {:induction false} AssembleFirstError(prog: seq<Record>)
    requires Assemble(prog).Err?
    ensures exists k :: (0 <= k < |prog| && EncodeRecord(prog[k]) == Err(Assemble(prog).error) &&
      forall j :: 0 <= j < k ==> EncodeRecord(prog[j]).Ok?)
    decreases |prog|
  {
    var n := |prog| - 1;
    var init := prog[..n];
    assert forall k :: 0 <= k < n ==> init[k] == prog[k];
    if Assemble(init).Err? {
      AssembleFirstError(init);
      var k :| 0 <= k < |init| && EncodeRecord(init[k]) == Err(Assemble(init).error) &&
        forall j :: 0 <= j < k ==> EncodeRecord(init[j]).Ok?;
      assert EncodeRecord(prog[k]) == Err(Assemble(prog).error);
    } else {
      AssembleLayout(init);
      assert EncodeRecord(prog[n]) == Err(Assemble(prog).error);
    }
  }

  /** `translate_to_machine_code_bytes`: walks the records, checks each
      mnemonic's arity, encodes it and appends its 3 bytes; the first
      failure aborts and no bytecode is returned. */
  method TranslateToMachineCode(prog: seq<Record>) returns (r: Result<seq<byte>, AsmError>)
    ensures r == Assemble(prog)
    ensures r.Ok? ==> (|r.value| == 3 * |prog| &&
      forall k :: 0 <= k < |prog| ==> EncodeRecord(prog[k]) == Ok(r.value[3 * k .. 3 * k + 3]))
  {
    var bytecode: seq<byte> := [];
    for i := 0 to |prog|
      invariant Assemble(prog[..i]) == Ok(bytecode)
    {
      var rec := prog[i];
      var op, args := rec.op, rec.args;
      var word: Result<nat, AsmError>;
      if op == "load" {
        if |args| != 1 {
          r := Err(WrongArity("load", 1, |args|));
          AssemblePrefixError(prog, i, r.error);
          return;
        }
        word := EncodeLoad(args[0]);
      } else if op == "read" {
        if |args| != 1 {
          r := Err(WrongArity("read", 1, |args|));
          AssemblePrefixError(prog, i, r.error);
          return;
        }
        word := EncodeRead(args[0]);
      } else if op == "write" {
        if |args| != 0 {
          r := Err(WrongArity("write", 0, |args|));
          AssemblePrefixError(prog, i, r.error);
          return;
        }
        word := Ok(EncodeWrite());
      } else if op == "gt" {
        if |args| != 1 {
          r := Err(WrongArity("gt", 1, |args|));
          AssemblePrefixError(prog, i, r.error);
          return;
        }
        word := EncodeGt(args[0]);
      } else {
        r := Err(UnknownInstruction(op));
        AssemblePrefixError(prog, i, r.error);
        return;
      }
      if word.Err? {
        r := Err(word.error);
        AssemblePrefixError(prog, i, r.error);
        return;
      }
      assert prog[..i + 1][..i] == prog[..i];
      bytecode := bytecode + ToBytes3(word.value);
    }
    assert prog[..|prog|] == prog;
    r := Ok(bytecode);
    AssembleLayout(prog);
  }

  /** Once a prefix has assembled and the next record fails, the whole
      translation fails with that record's error. */
  lemma {:induction false} AssemblePrefixError(prog: seq<Record>, i: nat, e: AsmError)
    requires i < |prog| && Assemble(prog[..i]).Ok? && EncodeRecord(prog[i]) == Err(e)
    ensures Assemble(prog) == Err(e)
    decreases |prog| - i
  {
    assert prog[..i + 1][..i] == prog[..i];
    SuffixError(prog, i + 1, e);
  }

  /** An error in the prefix prog[..j] is the error of the whole translation. */
  lemma {:induction false} SuffixError(prog: seq<Record>, j: nat, e: AsmError)
    requires j <= |prog| && Assemble(prog[..j]) == Err(e)
    ensures Assemble(prog) == Err(e)
    decreases |prog| - j
  {
    if j == |prog| {
      assert prog[..j] == prog;
    } else {
      assert prog[..j + 1][..j] == prog[..j];
      SuffixError(prog, j + 1, e);
    }
  }

  /** The source's byte-exact test vectors: Load(267), Read(34), Write, Gt(27). */
  lemma LoadVector()
    ensures EncodeBytes(Load(267)) == Ok([0xB1, 0x10, 0x00])
  {
    assert Encode(Load(267)) == Ok(4273);
  }

  lemma ReadVector()
    ensures EncodeBytes(Read(34)) == Ok([0x2F, 0x02, 0x00])
  {
    assert Encode(Read(34)) == Ok(559);
  }

  lemma WriteVector()
    ensures EncodeBytes(Write) == Ok([0x03, 0x00, 0x00])
  {
    assert Encode(Write) == Ok(3);
  }

  lemma GtVector()
    ensures EncodeBytes(Gt(27)) == Ok([0xB5, 0x01, 0x00])
  {
    assert Encode(Gt(27)) == Ok(437);
  }

  /** The edges of the operand ranges. */
  lemma RangeBoundaries()
    ensures Encode(Load(262143)).Ok? && Encode(Load(262144)).Err? && Encode(Load(-1)).Err?
    ensures Encode(Read(63)).Ok? && Encode(Read(64)).Err? && Encode(Read(-1)).Err?
    ensures Encode(Gt(63)).Ok? && Encode(Gt(64)).Err? && Encode(Gt(-1)).Err?
  {
  }
}
