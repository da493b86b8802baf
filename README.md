# UVM variant 20: assembler back end and interpreter

This project models a small stack-machine toolchain in Dafny. Its two halves
share one instruction format. An instruction is a 24-bit word sent as 3
little-endian bytes. Bits 0-3 hold the opcode. The operand sits from bit 4
upwards: 18 bits for `load`, 6 bits for `read` and `gt`, none for `write`.

- `12312312.py` holds the assembler back end. It has `mask`, the four
  encoders (`encode_load`, `encode_read`, `encode_write`, `encode_gt`) and
  `translate_to_machine_code_bytes`. That function checks each record's
  mnemonic and arity, encodes it and concatenates the 3-byte encodings.
- `interpr.py` holds the interpreter. The `UVM` class has a fixed-size memory
  of 1024 zeros and an operand stack. `execute` fetches 3 bytes at a time,
  cuts out the opcode and operand fields, and applies load, read, write or
  gt. It stops on a truncated tail or an unknown opcode. `main` checks the
  memory-dump range and selects the cells it dumps.

The Dafny modules follow that structure:

- `Bits` (`bits.dfy`) models `mask`, shifts and bitwise AND/OR on
  non-negative integers. Both source files define the same `mask`, so it is
  modelled once.
- `Isa` (`isa.dfy`) holds the instruction datatype, the constants and the
  3-byte little-endian conversion.
- `Assembler` (`assembler.dfy`) holds the encoders and the translation. The
  translation is a `for` loop, proved against the specification function
  `Assemble`.
- `Machine` (`machine.dfy`) holds the decode and the step semantics `Exec`.
  It also holds the run specification `Run`, the `UVM` class, whose memory
  is an array updated in place, the `Execute` loop proved against `Run`, and
  the dump.
- `RoundTrip` (`roundtrip.dfy`) connects the two halves. Decode inverts
  encode. Running the bytecode the assembler produces is running the listed
  instructions. It also proves the concrete scenarios.

The Python exceptions become failure values:

- `ValueError` in the assembler becomes `Err(AsmError)`.
- An unknown opcode becomes the halt reason `BadOpcode`.
- The "Stack underflow" `RuntimeError` becomes `None` from `Pop`, `Underflow`
  from `Exec`, and the halt reason `StackUnderflow`.

## Model

| member | source | states |
|---|---|---|
| Bits.MaskOnes | 12312312.py:5-7 | `mask(n)` plus 1 is 2^n; it is 0 for n = 0, otherwise its low bit is set and `mask(n-1)` lies above it |
| Bits.AndMask | interpr.py:7-9 | AND with `mask(n)` keeps exactly the low n bits: `x & mask(n) == x mod 2^n` |
| Bits.OrDisjoint | 12312312.py:24-26 | OR of a value below 2^n with a value shifted left by n is their sum (the fields do not overlap) |
| Isa.BytesRoundTrip | 12312312.py:206-207 | `to_bytes(3, "little")` then `from_bytes` gives the word back, and the other way round, for every word below 2^24 |
| Assembler.PackWord | 12312312.py:24-26 | packing a tag below 16 and an operand that fits its field gives `tag + 16*operand`, whose low 4 bits are the tag and whose upper part is the operand |
| Assembler.EncodeLoad | 12312312.py:9-28 | accepts exactly 0 <= c <= 262143 (the error carries the value and the 18-bit width); the word is `1 + 16*c`, below 2^22 |
| Assembler.EncodeRead | 12312312.py:31-46 | accepts exactly 0 <= o <= 63, otherwise a range error with the 6-bit width; the word is `15 + 16*o` |
| Assembler.EncodeWrite | 12312312.py:49-57 | the word is 3 |
| Assembler.EncodeGt | 12312312.py:60-75 | accepts exactly 0 <= o <= 63, otherwise a range error with the 6-bit width; the word is `5 + 16*o` |
| Assembler.Encode | 12312312.py:203-224 | succeeds exactly when the operand fits its field; the word is `opcode + 16*operand` and below 2^22, so 3 bytes always suffice |
| Assembler.EncodeBytes | 12312312.py:206-222 | the 3 serialised bytes read back as `opcode + 16*operand`; a failure is the encoder's range error |
| Assembler.Lower | 12312312.py:200-224 | load/read/gt need 1 argument and write none, otherwise a wrong-arity error naming the expected and actual counts; any other mnemonic is an unknown-instruction error; a success is the instruction the record spells |
| Assembler.LowerIsInverse | 12312312.py:200-224 | lowering inverts writing an instruction as a record, and accepts exactly the records so written |
| Assembler.EncodeRecord | 12312312.py:200-224 | a record encodes to 3 bytes exactly when its mnemonic and arity are right and its operand fits |
| Assembler.AssembleLayout | 12312312.py:194-226 | the translation succeeds exactly when every record encodes; then it has 3 bytes per record, and bytes [3k, 3k+3) are record k's encoding |
| Assembler.AssembleFirstError | 12312312.py:194-226 | a failed translation reports the error of the first record that does not encode; every earlier record encodes |
| Assembler.TranslateToMachineCode | 12312312.py:194-226 | the loop's result is the translation specification `Assemble`, with the length and per-slot layout above; any failure returns no bytecode |
| Assembler.AssemblePrefixError | 12312312.py:203-224 | once a prefix has assembled, a failing next record makes the whole translation fail with that record's error |
| Assembler.LoadVector | 12312312.py:124-130 | Load(267) serialises to [0xB1, 0x10, 0x00] |
| Assembler.ReadVector | 12312312.py:132-138 | Read(34) serialises to [0x2F, 0x02, 0x00] |
| Assembler.WriteVector | 12312312.py:140-146 | Write serialises to [0x03, 0x00, 0x00] |
| Assembler.GtVector | 12312312.py:148-154 | Gt(27) serialises to [0xB5, 0x01, 0x00] |
| Assembler.RangeBoundaries | 12312312.py:19-22 | 262143 is encodable and 262144 and -1 are not; 63 is encodable as a read or gt offset and 64 and -1 are not |
| Machine.DecodeFields | interpr.py:68-72 | the opcode is `w mod 16`; the value is the 18 bits above it; the offset is the 6 bits above it, the low 6 bits of the value |
| Machine.Decode | interpr.py:68-109 | a word decodes exactly when its low 4 bits are 1, 3, 5 or 15; otherwise the error names that opcode; load takes the 18-bit field, read and gt the 6-bit field |
| Machine.Fresh | interpr.py:22-24 | a fresh state has `size` cells, every one 0, and an empty stack |
| Machine.PopValue | interpr.py:29-32 | pop fails exactly on an empty stack; otherwise the rest plus the popped value is the old stack |
| Machine.PushPop | interpr.py:26-32 | popping right after a push returns the pushed value and restores the stack (LIFO) |
| Machine.ReadCell | interpr.py:34-39 | a read inside memory gives the cell, outside gives 0 |
| Machine.WriteCell | interpr.py:41-45 | a write inside memory changes only the target cell; outside memory it changes nothing; the length never changes |
| Machine.Exec | interpr.py:76-106 | an instruction underflows exactly when the stack holds fewer values than it pops, leaving an empty stack and memory untouched; otherwise the height changes by pushes minus pops, values below the popped ones are kept, and load and read never touch memory |
| Machine.ExecLoad | interpr.py:76-80 | load pushes its constant |
| Machine.ExecRead | interpr.py:81-88 | read replaces addr on top of the stack with `read_memory(addr + o)` |
| Machine.ExecWrite | interpr.py:89-94 | write pops value, then addr, and stores value at addr |
| Machine.ExecGt | interpr.py:95-106 | gt pops val1, val2, addr and writes 1 if val2 > val1, else 0, at addr + o |
| Machine.RunPc | interpr.py:54-109 | pc only grows, by whole instructions of 3 bytes, and never passes the end of the bytecode |
| Machine.RunMemorySize | interpr.py:50-109 | memory keeps its size through a run |
| Machine.RunHalt | interpr.py:57-109 | a run finishes normally exactly when fewer than 3 bytes remain at the final pc; it stops on an unknown opcode only at a word whose low 4 bits are that opcode; after an underflow the stack is empty |
| Machine.RunFromStart | interpr.py:54-61 | a run from 0 ends on a multiple of 3; a normal finish stops at the last complete instruction, so a 1- or 2-byte tail is never executed |
| Machine.UnknownOpcodeHalts | interpr.py:107-109 | an unknown opcode stops the run at that pc with the state untouched |
| Machine.UVM.constructor | interpr.py:22-24 | a new machine has `memory_size` (default 1024) fresh cells, all 0, and an empty stack |
| Machine.UVM.Push | interpr.py:26-27 | push appends the value to the stack |
| Machine.UVM.Pop | interpr.py:29-32 | pop fails exactly on an empty stack and then leaves it as it was; otherwise it removes and returns the top value |
| Machine.UVM.ReadMemory | interpr.py:34-39 | returns the cell inside memory, 0 outside, and changes nothing |
| Machine.UVM.WriteMemory | interpr.py:41-45 | the array afterwards is `WriteCell` of the old contents |
| Machine.ExecuteInstr | interpr.py:76-106 | the pops, memory access and push done on the machine object leave it in the state `Exec` gives, or in `Exec`'s underflow state |
| Machine.Execute | interpr.py:50-111 | the fetch-decode-execute loop ends in the final state, pc and halt reason that `Run` gives from pc 0 |
| Machine.CheckDumpRange | interpr.py:125-128 | a dump range is accepted exactly when 0 <= start <= end < 1024; otherwise the error carries both bounds |
| Machine.Dump | interpr.py:145-147 | the dump holds exactly the addresses from start to end that lie inside memory, each mapped to its cell |
| RoundTrip.DecodeEncode | interpr.py:63-72 | every encodable instruction serialises, and decoding its 3 bytes gives the same instruction back |
| RoundTrip.EncodeDecode | interpr.py:68-72 | whatever decodes re-encodes, to the word cut to its tag and operand field (bits above them are dropped) |
| RoundTrip.EncodesDecodes | interpr.py:63-72 | every 3-byte slot of bytecode that encodes an instruction list decodes to the matching instruction |
| RoundTrip.RunEncoded | interpr.py:50-109 | running bytecode whose slots decode to an instruction list does what the list does, with the same final state, pc and halt reason |
| RoundTrip.EncodedNeverBad | interpr.py:107-109 | bytecode that encodes an instruction list never stops on an unknown opcode |
| RoundTrip.AssembleThenRun | 12312312.py:194-226 | when the assembler accepts a record list, every record lowers, and running its bytecode is executing the listed instructions |
| RoundTrip.StoreAndReload | interpr.py:76-94 | Load(5), Load(100), Write, Load(5), Read(0) stores 100 at address 5 and leaves [100] on the stack, finishing at pc 15 |
| RoundTrip.GreaterThanStores | interpr.py:95-106 | with addr 50, val2 10 and val1 3 pushed, Gt(0) stores 1 at 50 (10 > 3) and empties the stack |
| RoundTrip.TestVectorsUnderflow | interpr.py:81-94 | the four test vectors run in order underflow at the write at pc 6, leaving an empty stack and memory unchanged |
| RoundTrip.FreshScenarios | interpr.py:22-24 | the three scenarios hold on a fresh machine |

## Left out

- Command-line handling in both `main` functions is not modelled: `argparse`, the `--test-mode` branch and `sys.exit`. This is CLI plumbing.
- File I/O is not modelled: `assemble_from_csv`, reading the binary file, writing the output file and `json.dump`. The dump keys are integers; their `str()` rendering as JSON keys is part of the output format.
- `parse_csv_row` is not modelled, because it relies on Python's `int()` and on `csv.reader`. The assembler's input is the parsed record: a lower-case mnemonic and a list of integers.
- No `print` output is modelled, including the out-of-bounds read and write warnings, `display_intermediate_fields` and the messages in `run_tests`. They are logging and change no state.
- The records' `.get("op")` and `.get("args", [])` defaults are not modelled. The parser always produces both keys.
- `to_bytes(3, "little")` can raise `OverflowError`, but this is not modelled. The proofs show that every encoded word is below 2^22, so it never does.
- Where the underflow stops is reported differently. In the source the `RuntimeError` escapes `execute` and `main` uncaught and the local `pc` is lost. The model returns the halt reason `StackUnderflow` and the pc of the failing instruction. The pops before the failure stay done, as in the source.
- The dump is taken only for a range that passed the check. `main` exits before the dump otherwise, so Python's negative-index behaviour is not reachable.
