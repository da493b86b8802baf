/** The instruction format shared by the assembler and the interpreter:
    a 24-bit word, sent as 3 little-endian bytes, with a 4-bit opcode in
    bits 0-3 and the operand from bit 4 upwards. */
module Isa {
  import opened Bits

  type byte = x: int | 0 <= x < 256

  datatype Result<+T, +E> = Ok(value: T) | Err(error: E)

  datatype Option<+T> = None | Some(value: T)

  /** The four instructions. Operands are unbounded integers, as in the
      source: a negative or oversized operand is a value the encoder rejects. */
  datatype Instr = Load(c: int) | Read(o: int) | Write | Gt(o: int)

  const OpcodeBits: nat := 4
  const ConstBits: nat := 18
  const OffsetBits: nat := 6

  const LoadOpcode: nat := 1
  const ReadOpcode: nat := 15
  const WriteOpcode: nat := 3
  const GtOpcode: nat := 5

  /** Width of each instruction in bytes. */
  const InstrSize: nat := 3

  /** The opcode tag of an instruction. */
  function Opcode(i: Instr): nat
  {
    match i
    case Load(_) => LoadOpcode
    case Read(_) => ReadOpcode
    case Write => WriteOpcode
    case Gt(_) => GtOpcode
  }

  /** The operand stored above the tag (Write has none, stored as 0). */
  function Operand(i: Instr): int
  {
    match i
    case Load(c) => c
    case Read(o) => o
    case Write => 0
    case Gt(o) => o
  }

  /** The width of the operand field. */
  function OperandBits(i: Instr): nat
  {
    match i
    case Load(_) => ConstBits
    case Read(_) => OffsetBits
    case Write => 0
    case Gt(_) => OffsetBits
  }

  /** The operand fits its field: 0 <= operand <= mask(width). */
  predicate InRange(i: Instr)
  {
    0 <= Operand(i) <= Mask(OperandBits(i))
  }

  /** `w.to_bytes(3, "little")`: byte k is `(w >> 8k) & 0xFF`. */
  function ToBytes3(w: nat): (b: seq<byte>)
    requires w < 16777216
    ensures |b| == 3
  {
    [w % 256, (w / 256) % 256, w / 65536]
  }

  /** `int.from_bytes(b, "little")` on 3 bytes. */
  function FromBytes3(b: seq<byte>): (w: nat)
    requires |b| == 3
    ensures w < 16777216
  {
    b[0] as int + 256 * (b[1] as int) + 65536 * (b[2] as int)
  }

  /** Reading back what was serialised gives the same word, and the other way round. */
  lemma BytesRoundTrip(w: nat, b: seq<byte>)
    requires w < 16777216 && |b| == 3
    ensures FromBytes3(ToBytes3(w)) == w
    ensures ToBytes3(FromBytes3(b)) == b
  {
    var lo, hi := w % 256, w / 256;
    DivModUnique(w, 256, hi, lo);
    DivModUnique(hi, 256, w / 65536, hi % 256);
    var v := FromBytes3(b);
    var b0, b1, b2: int := b[0], b[1], b[2];
    DivModUnique(v, 256, b1 + 256 * b2, b0);
    DivModUnique(b1 + 256 * b2, 256, b2, b1);
    DivModUnique(v, 65536, b2, b0 + 256 * b1);
  }
}
