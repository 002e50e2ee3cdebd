# lrc in Dafny

lrc is a small teaching virtual machine with an assembler. A program is text: one
mnemonic per line (`LDA 5`, `ADD 40, 41`), with `#` comments and `name:` labels. The
assembler turns the text into 32-bit words. The words are loaded into a sparse word
memory from address 33, and an interpreter then fetches, decodes and executes one word
per tick. The repository holds several drafts of this machine:

- the self-contained reference, `lrc/lrc.py`;
- a packaged split of it (`lrc/core.py`, `lrc/opcode.py`, `lrc/interpreter.py`,
  `lrc/compiler.py`);
- an early single-file draft, `lrc.py`.

This project models the memory, the instruction encodings, the step function and its
handlers, the run loop, the program loader and the two-pass assembler of each draft.
It proves what the code promises about them.

Modules, one per file:

- `Memory` (memory.dfy): the sparse store as a map, plus the `Memory` class that
  every draft shares. That class has a dictionary of cells and the program counter
  `ptr`. `len` is derived from the highest written cell.
- `Isa` (isa.dfy): the thirteen mnemonics, their opcodes, names and arities.
- `Encoding` (encoding.dfy): the reference op constructors. They mask operands to
  16 bits and pack opcode, `lo` and `hi` into bits 0-3, 4-19 and 20 upwards.
  `interpret` unpacks a word.
- `Machine` (machine.dfy): the handler table and the tick of the reference as
  functions over a configuration (cells and `ptr`), and the run as a fuel-bounded
  iteration.
- `Cpu` (cpu.dfy): the same handlers, tick, run loop and program loader as methods
  that update a `Memory` object in place. Each is proved to end in exactly the state
  the `Machine` function computes.
- `Terminal` (terminal.dfy): one poll of the terminal device.
- `Core` (core.dfy): the packaged 13-bit `Operand` and the unmasked op namedtuples.
- `Wide` (wide.dfy): the packaged interpreter's decoder, which uses a 28/14/14
  layout, and its tick.
- `Text` (text.dfy): Python's `splitlines`, `strip`, `split`, `int` and `str`, as
  far as the assemblers use them.
- `Eval` (eval.dfy): `eval` of operand text, limited to decimal literals and label
  names with an optional sign.
- `Assembler` (assembler.dfy): `prepare`, `find_labels`, `is_label`, `is_opcode`,
  `parse_label`, and `compile` in both dialects. The `Reference` dialect is
  `parse_opcode` of `lrc/lrc.py`. The `Packaged` dialect is `parse_opcode` of
  `lrc/compiler.py`, which splits on commas.
- `Early` (early.dfy): the early draft's decoder, tick, run and compiler.

`lrc/opcode.py` repeats `lrc/core.py` lines 1-132 character for character, so
`Core` models both. Rows below cite `lrc/core.py`.

Where the drafts share code, the model shares it:

- The three `Memory` classes (lrc/lrc.py:27, lrc/core.py:135, lrc.py:11) behave identically. The early draft's `Memory` reads and writes cell 25 through `set_flag()` and `flag()` instead of the `flag_cmp` property.
- The early draft's eight handlers are the reference handlers for opcodes 1 to 8.
- The early draft's op `value` is the reference `value`.
- The packaged interpreter calls an `execute` that no op defines. Its handlers are
  taken from the reference.

## Model

| member | source | states |
|---|---|---|
| Memory.Get | lrc/lrc.py:44-46 | a cell that was never written reads 0 |
| Memory.Put | lrc/lrc.py:48-51 | a write succeeds exactly when the value lies in [0, 2^32), and the cell then reads the value |
| Memory.PutFrame | lrc/lrc.py:48-51 | a successful write changes no other cell and raises `len` to cover the index |
| Memory.Len | lrc/lrc.py:37-38 | `len` is 0 exactly for an empty store, and otherwise the last index is written |
| Memory.KeysBelowLen | lrc/lrc.py:37-38 | every written index lies below `len` |
| Memory.LenIsLeastBound | lrc/lrc.py:37-38 | `len` is the unique bound that covers every written index and is just past a written one |
| Memory.LenOfUpdate | lrc/lrc.py:37-38 | writing cell i makes `len` the larger of the old `len` and i + 1 |
| Memory.Memory.constructor | lrc/lrc.py:33-35 | a new memory has no cells and `ptr` = 33 |
| Memory.Memory.Length | lrc/lrc.py:37-38 | the loop over the written keys returns `Len` |
| Memory.Memory.Read | lrc/lrc.py:44-46 | returns the cell's word, 0 if unwritten |
| Memory.Memory.Write | lrc/lrc.py:48-51 | succeeds exactly for a word and then stores it, otherwise stores nothing; `ptr` unchanged |
| Memory.Memory.ReadAccumulator | lrc/lrc.py:53-54 | reads cell 17 |
| Memory.Memory.WriteAccumulator | lrc/lrc.py:56-57 | writes cell 17 only |
| Memory.Memory.FlagCmp | lrc/lrc.py:59-61 | reads cell 25 |
| Memory.Memory.SetFlagCmp | lrc/lrc.py:63-65 | writes cell 25 only |
| Isa.FromOpcode | lrc/lrc.py:237-253 | the handler table has an entry exactly for opcodes 0 to 12, and the entry is that opcode's op |
| Isa.OpcodeBijection | lrc/lrc.py:152-214 | mnemonics and opcodes 0-12 are in one-to-one correspondence |
| Isa.NameBijection | lrc/lrc.py:380-394 | a mnemonic's name is recognised as exactly that mnemonic, and no other text is |
| Isa.NameIsUpper | lrc/lrc.py:152-214 | every mnemonic name is three upper-case letters |
| Encoding.Construct | lrc/lrc.py:118-145 | a nullary op takes any data, a unary op an int and a binary op a pair; each kept operand lies in [0, 2^16) and is congruent to the given value mod 2^16; a nullary op has `lo` = `hi` = 0 and a unary op `hi` = 0 |
| Encoding.UnpackPacked | lrc/lrc.py:314-326 | `interpret(op + lo*16 + hi*2^20) == (op, lo, hi)` for a 4-bit op and 16-bit `lo`, `hi` |
| Encoding.RoundTrip | lrc/lrc.py:118-149 | for every constructed op, `interpret(op.value) == (op.opcode, op.lo, op.hi)` and the opcode's table entry is the op |
| Encoding.ValueFitsWord | lrc/lrc.py:127-149 | a nullary or unary op's value is a word; a binary op's value is a word exactly when `hi < 2^12` |
| Encoding.InterpretWord | lrc/lrc.py:314-326 | a word splits into fields with an opcode below 16, `lo` below 2^16 and `hi` below 2^12, and those fields rebuild it |
| Machine.LoadEffect | lrc/lrc.py:328-329 | LDA writes the literal `lo` to cell 17 and changes nothing else |
| Machine.StoreMoveEffect | lrc/lrc.py:339-356 | STA copies cell 17 to cell `lo`; MOV copies cell `hi` to cell `lo`; nothing else changes |
| Machine.IncDecEffect | lrc/lrc.py:331-337 | INC and DEC change only cell `lo`, by +1 and -1; INC of 2^32-1 and DEC of 0 fail the write check and change nothing |
| Machine.AddSubEffect | lrc/lrc.py:343-349 | ADD sets cell `lo` to (`mem[lo]` + `mem[hi]`) mod 2^16, and SUB sets it to (`mem[lo]` - `hi`) mod 2^16 with `hi` a literal; neither can fail |
| Machine.CompareEffect | lrc/lrc.py:358-361 | CMP writes 1 to cell 25 exactly when `mem[lo] < mem[hi]`, 0 otherwise, and changes nothing else |
| Machine.BranchEffect | lrc/lrc.py:351-369 | JMP always, BRA when the flag is 0 and BRB when it is 1 set `ptr` to `lo - 1`; no jump writes memory |
| Machine.IncThenDec | lrc/lrc.py:331-337 | a completed INC followed by DEC of the same cell restores every cell |
| Machine.CompareThenBranch | lrc/lrc.py:358-369 | after CMP, BRB jumps exactly when `mem[lo] < mem[hi]` and BRA exactly when not |
| Machine.StepAdvances | lrc/lrc.py:292-298 | after a completed handler `ptr` is the handler's value plus one, the step is a SegmentationFault exactly when that exceeds `len`, and a non-jumping op moves `ptr` by one |
| Machine.HaltStops | lrc/lrc.py:292-303 | HLT stops cleanly without incrementing `ptr`, writing memory or faulting |
| Machine.UnknownOpcodeFaults | lrc/lrc.py:285-292 | opcodes 13-15 have no table entry: the step faults and changes nothing |
| Machine.RunOffTheEnd | lrc/lrc.py:285-298 | a fetch at or past `len` reads a NUL, and its increment is a SegmentationFault |
| Machine.StepKeepsPtrInBounds | lrc/lrc.py:295-298 | a step that keeps running leaves 0 <= `ptr` <= `len` |
| Machine.StopIsFinal | lrc/lrc.py:300-307 | a Terminate or a fault ends the run: no later step happens |
| Machine.RunExtends | lrc/lrc.py:283-307 | a run of k + 1 ticks is a run of k ticks followed, while running, by one step |
| Machine.IterateSplits | lrc/lrc.py:283-307 | a run of a + b ticks is a run of a ticks and then, while running, b more |
| Machine.IterateKeeps | lrc/lrc.py:283-307 | a property every running step preserves holds where the run ends |
| Machine.StoppedRunIsStable | lrc/lrc.py:300-307 | once stopped, more fuel changes nothing |
| Machine.RunKeepsPtrInBounds | lrc/lrc.py:295-298 | from an in-bounds `ptr`, every running configuration of a run has an in-bounds `ptr` |
| Cpu.Store | lrc/lrc.py:48-51 | a handler's write on the object has the effect `Machine.WriteEffect` describes |
| Cpu.Jump | lrc/lrc.py:351-352 | `ptr = lo - 1` on the object |
| Cpu.Execute | lrc/lrc.py:328-375 | each handler leaves the object in the state `Machine.Exec` computes and returns its signal |
| Cpu.Tick | lrc/lrc.py:283-307 | the tick on the object ends in exactly the outcome of `Machine.Step` |
| Cpu.Run | lrc/lrc.py:271-312 | the loop of ticks ends in exactly the outcome of `Machine.Run` |
| Cpu.LoadAllFails | lrc/lrc.py:484-485 | loading fails exactly when some value is not a word, and then at the first such value |
| Cpu.LoadAllContents | lrc/lrc.py:484-485 | a load writes only cells base to base + n, and a successful one leaves value i at base + i |
| Cpu.LoadAllStops | lrc/lrc.py:484-485 | after a failed write, nothing more is written |
| Cpu.LoadProgram | lrc/lrc.py:484-485 | the loading loop leaves the store and the failure position `LoadAll` computes, with `ptr` unchanged |
| Cpu.LoadedProgramDecodes | lrc/lrc.py:484-485 | after a successful load, the word at 33 + i decodes to op i's opcode, `lo` and `hi` |
| Terminal.DrainClears | lrc/lrc.py:76-88 | a poll takes exactly a non-zero word at cell 0, leaves that cell 0 and changes no other cell nor `len` |
| Terminal.DrainTwice | lrc/lrc.py:76-88 | a second poll without an intervening write takes nothing |
| Terminal.TerminalStdout.Flush | lrc/lrc.py:90-93 | returns the queued codes and empties the queue |
| Terminal.TerminalStdout.Listen | lrc/lrc.py:76-88 | one poll: the store is the drained store, and the output is the old queue plus the word taken |
| Core.OperandOf | lrc/core.py:4-15 | an operand's value is below 2^12 |
| Core.ToIntOfOperand | lrc/core.py:8-23 | `int(Operand(d)) == d mod 8192`, so `d` comes back for 0 <= d < 8192 |
| Core.OperandOfToInt | lrc/core.py:8-23 | `Operand(int(o)) == o` for every operand whose value is below 4096 |
| Core.Build | lrc/core.py:31-67 | a unary op needs an int, a binary op a pair; the op's name and opcode identify its mnemonic; `hi` is 0 unless binary and `lo` is 0 for a nullary op |
| Core.BuildAgreesWithReference | lrc/core.py:41-67 | a packaged op's value is `opcode + lo*16 (+ hi*2^20)`, the reference value; with 16-bit operands it is the reference op |
| Core.BuildDecodes | lrc/core.py:41-67 | with 16-bit operands, the reference decoder recovers the packaged op's opcode, `lo` and `hi` |
| Core.UnmaskedLoSpills | lrc/core.py:41-51 | an unmasked `lo` of 2^16 lands in the `hi` field when decoded |
| Wide.MasksPartition | lrc/interpreter.py:80-83 | the three masks are pairwise disjoint and cover 32 bits |
| Wide.Fields | lrc/interpreter.py:80-90 | `ins < 16` and both operand fields are below 2^14 |
| Wide.FieldsPack | lrc/interpreter.py:80-90 | for a word, `data == ins*2^28 + lofield*2^14 + hifield` |
| Wide.Decode | lrc/interpreter.py:80-93 | decoding succeeds exactly for `ins` below 13; each operand's integer is its field mod 8192 |
| Wide.FieldBit13Dropped | lrc/interpreter.py:86-87 | fields that differ only in bit 13 decode to the same operand |
| Wide.LayoutsDisagree | lrc/interpreter.py:80-93 | the packaged word of `JMP 40` decodes as a NUL here: encoder and decoder layouts disagree |
| Wide.WideStepAdvances | lrc/interpreter.py:50-73 | a completed handler is followed by `ptr + 1`, a SegmentationFault exactly past `len`; a Terminate or a fault ends the step with `ptr` as the handler left it |
| Wide.WideUnknownOpcodeFaults | lrc/interpreter.py:80-91 | opcodes 13-15 in the top field fault at decode and change nothing |
| Wide.WideStoppedRunIsStable | lrc/interpreter.py:66-73 | a Terminate or any fault ends the run for good |
| Wide.WideTick | lrc/interpreter.py:50-64 | the tick on a memory object ends in exactly the outcome of `WideStep` |
| Text.SplitLines | lrc/lrc.py:422 | `splitlines` gives lines without breaks, and no lines for empty text |
| Text.SplitLinesOfTerminated | lrc/lrc.py:422 | newline-terminated lines split back into those lines |
| Text.Strip | lrc/lrc.py:423 | `strip` is no longer than the text and neither starts nor ends with whitespace |
| Text.StripRemovesOnlySpaces | lrc/lrc.py:423 | what `strip` removes is whitespace |
| Text.StripIdempotent | lrc/lrc.py:423 | stripping twice is stripping once |
| Text.JoinOfSplit | lrc/compiler.py:124 | joining the parts of `split(',')` rebuilds the text |
| Text.SplitOfJoin | lrc/compiler.py:124 | parts without the separator, joined, split back into themselves |
| Text.SplitOnce | lrc.py:255 | `split(' ', 1)` gives one part exactly when there is no space, and otherwise the text before the first space and the rest |
| Text.Words | lrc.py:278 | `split()` gives nonempty runs with no whitespace |
| Text.WordsOfJoin | lrc.py:278 | words joined by single spaces split back into the same words |
| Text.ParseIntOfShow | lrc.py:258 | `int(str(n)) == n` for every integer |
| Eval.TrimBlanksRemovesOnlyBlanks | lrc/lrc.py:453 | the operand `eval` reads is a slice of the text with only blanks on either side of it, and neither end of it is a blank |
| Eval.EvalAtomOfShow | lrc/lrc.py:453 | `eval` of `str(n)`, with blanks in front, gives n |
| Eval.EvalAtomOfName | lrc/lrc.py:453 | a name that is neither a keyword nor `__debug__` evaluates to its label's address, and an unknown name does not evaluate |
| Eval.EvalAtomOfKeyword | lrc/lrc.py:453 | a keyword is never a label lookup: `True` is 1 and `False` is 0, and every other keyword fails, even one bound as a label |
| Eval.EvalAtomOfDebug | lrc/lrc.py:453 | `__debug__` evaluates to 1 whatever the labels, so `JMP __debug__` passes `int()` with `lo` = 1 |
| Eval.EvalAll | lrc/lrc.py:453 | a tuple evaluates element by element, one value per element |
| Assembler.PrepareLinesStripped | lrc/lrc.py:421-424 | `prepare` keeps at most the lines it was given, and none of them starts or ends with whitespace |
| Assembler.PrepareLinesAppend | lrc/lrc.py:421-424 | `prepare` works line by line: preparing two blocks is preparing each |
| Assembler.PrepareLine | lrc/lrc.py:421-424 | a single line is dropped exactly when it is empty or starts with `#`, and is otherwise kept stripped |
| Assembler.PrepareClean | lrc/lrc.py:421-424 | already stripped, non-comment lines pass through unchanged |
| Assembler.BlankLineIsNotSkipped | lrc/lrc.py:421-424 | a whitespace-only line survives the comment test as an empty line and then raises UnrecognizedInstruction in both dialects |
| Assembler.IsLabelMatches | lrc/lrc.py:439-440 | `is_label` holds exactly when the line matches `^[a-zA-Z][-_0-9a-zA-Z]*:` |
| Assembler.ParseLabelName | lrc/lrc.py:445-446 | a label's name is its leading run of label characters, before the first `:` |
| Assembler.IsOpcodeMeans | lrc/lrc.py:442-443 | `is_opcode` holds exactly when the line is a mnemonic alone or a mnemonic followed by a space |
| Assembler.LabelsOfAddresses | lrc/lrc.py:426-434 | every label on prepared line i maps to 33 + i |
| Assembler.LabelsOfNames | lrc/lrc.py:426-434 | every key of the label map comes from a label line and maps to its address |
| Assembler.LabelsOfFails | lrc/lrc.py:426-434 | the label pass fails exactly when two lines carry the same label name |
| Assembler.LabelsOfNone | lrc/lrc.py:426-434 | without label lines the map is empty |
| Assembler.FindLabels | lrc/lrc.py:426-434 | the loop filling the dictionary computes `LabelsOf` |
| Assembler.ParseReferenceBlank | lrc/lrc.py:448-455 | with no operand text only a nullary op is built, with `lo` = `hi` = 0; any other op raises |
| Assembler.ParseReferenceScalar | lrc/lrc.py:448-455 | text without a comma is evaluated once: an evaluation failure raises, a nullary op ignores the value, a unary op keeps it mod 2^16 and a binary op raises |
| Assembler.ParseReferencePair | lrc/lrc.py:448-455 | text `a,b` is a pair: a binary op keeps both values mod 2^16, a unary op raises and a nullary op ignores it |
| Assembler.ParsePackagedBlank | lrc/compiler.py:116-132 | with no operand text `lo` = `hi` = 0, for any op |
| Assembler.ParsePackagedFirstPart | lrc/compiler.py:116-132 | with other than two comma parts, `lo` is the first part's value and `hi` is 0, and the later parts are never evaluated; a failing first part raises |
| Assembler.ParsePackagedPair | lrc/compiler.py:116-132 | with exactly two parts, `lo` and `hi` are their values, unmasked and whatever the op's arity; the first failing part raises |
| Assembler.CompileLineOfName | lrc/lrc.py:448-455 | `XXX name` for a unary op and a label name that is neither a keyword nor `__debug__` compiles to the label's value, mod 2^16 in the reference dialect |
| Assembler.CompileLineOfLabelOperand | lrc/lrc.py:426-455 | label resolution: a unary op whose operand names a label of the program gets 33 plus the index of the label's line (mod 2^16 in the reference dialect) |
| Assembler.CompileLine | lrc/lrc.py:407-417 | the label test comes first and a label line is a NUL; a line that is neither a label nor an operation raises UnrecognizedInstruction; an op has the line's mnemonic |
| Assembler.CompileLinesShape | lrc/lrc.py:398-419 | a successful compile gives one instruction per prepared line: a NUL per label line, an op of its own mnemonic per other line |
| Assembler.CompileLinesUnrecognized | lrc/lrc.py:398-419 | the first line that is neither a label nor an operation raises UnrecognizedInstruction with that line |
| Assembler.Compile | lrc/lrc.py:398-419 | the method computes `CompileProgram` |
| Assembler.TranslateLines | lrc/lrc.py:406-417 | the translation loop computes `CompileLines` and stops at the first error |
| Assembler.ReferenceOfOperands | lrc/lrc.py:448-458 | the reference parser reads the operand text of a canonical op back as that op |
| Assembler.PackagedOfOperands | lrc/compiler.py:116-134 | the packaged parser reads the operand text of a canonical op back as its mnemonic, `lo` and `hi` |
| Assembler.CompileOfListing | lrc/lrc.py:398-458 | compiling the listing of canonical ops gives back exactly those ops, in both dialects |
| Early.DraftOp | lrc.py:147-156 | the table has entries exactly for opcodes 1 to 8, numbered as in the reference |
| Early.Decode | lrc.py:185-192 | `interpret` gives a 4-bit opcode and 32 bits of data |
| Early.DecodeAgrees | lrc.py:185-192 | the draft's two-stage decode gives the reference's opcode, `lo` and `hi` for every word |
| Early.ValueRoundTrip | lrc.py:87-102 | decoding an op's `value` gives back its opcode, `lo` and `hi` when both are below 2^16 |
| Early.OffTheEndHalts | lrc.py:169-173 | past the last written cell the tick reads 0 and the run stops cleanly |
| Early.ZeroWordHalts | lrc.py:169-173 | any zero word, written or not, stops the run cleanly with nothing changed |
| Early.StepAdvances | lrc.py:168-180 | a completed handler is followed by `ptr + 1` and a non-jumping op moves `ptr` by one; there is never a SegmentationFault |
| Early.JumpLands | lrc.py:236-239 | after JMP the next fetch is at `lo` |
| Early.UnknownOpcodeFaults | lrc.py:175-176 | a nonzero word whose opcode is 0 or 9-15 has no table entry and faults |
| Early.StoppedRunIsStable | lrc.py:168-180 | a stopped run stays stopped |
| Early.Tick | lrc.py:168-180 | the tick on a memory object ends in exactly the outcome of `Early.Step` |
| Early.Run | lrc.py:158-183 | the loop of ticks ends in exactly the outcome of `Early.Ticks` |
| Early.DraftMnemonic | lrc.py:257-301 | a recognised name is one of the eight draft mnemonics |
| Early.DraftMnemonicOfName | lrc.py:257-301 | each of the eight mnemonics is recognised |
| Early.ParseLine | lrc.py:253-301 | empty and `#` lines are skipped; any other line without a space raises; an op has the mnemonic named before the first space |
| Early.ParseLineOfRender | lrc.py:253-301 | a rendered draft op is a processed line without breaks, and it parses back to the op |
| Early.UnknownLineSkipped | lrc.py:253-303 | a processed line with an unknown mnemonic produces nothing and raises nothing |
| Early.SkippedLineIsInvisible | lrc.py:253-303 | a skipped line can be put anywhere without changing what the program compiles to |
| Early.Compile | lrc.py:251-303 | the loop over lines computes `CompileProgram` |
| Early.ParseOperands | lrc.py:277-280 | the rendered operand text of an op, `str(lo) str(hi)` or `str(lo)`, splits into and parses back to its operands |
| Early.ParseUnaryLine | lrc.py:257-293 | for any text after the mnemonic and a space, a one-operand op is `int()` of all of it, and a ValueError when that fails |
| Early.ParseBinaryLine | lrc.py:277-301 | for any text after the mnemonic and a space, a two-operand op raises unless `split()` gives exactly two words, and then is their two `int()` values, the first failure raising |
| Early.CommaPairFails | lrc.py:277-280 | the comma syntax `ADD 3, 4` raises at `int("3,")` |
| Early.CompileOfListing | lrc.py:250-303 | compiling the listing of any draft ops, whatever their operand values, gives back exactly those ops |

## Left out

- asyncio scheduling is not modelled: `run`, `shutdown`, task cancellation and `run_forever` (lrc/lrc.py:271-312, lrc/interpreter.py:37-78, lrc.py:158-183). A run is a fuel-bounded loop of the step, ending Running (fuel spent), Halted or Faulted.
- The early draft's fault handling: there an exception in a tick kills only that task, and the event loop keeps running without ticking. The model ends the run with Faulted.
- The terminal device's `chr`/stdout output and its rescheduling are not modelled. So TerminalStdout.Listen always empties the queue, where `flush` (lrc/lrc.py:90-93) raises in `chr` for a code at or above 0x110000 and keeps it queued. One `Listen` is one poll that returns the codes it would print. The device copies in lrc/device.py, lrc/compiler.py, bin/lrc.py and lrc.py are the same poller and are not repeated.
- Python `eval` is modelled only for decimal literals and label names, with one optional sign and blanks around the operand, plus comma tuples with one trailing comma. Hexadecimal, underscores, parentheses, repeated signs, expressions, inline `#` comments (`INC 40 # n`, which `eval` reads as `INC 40`) and label names containing `-` are not modelled. Those all make `eval` raise or compute something else, and the model reports an evaluation failure.
- `__debug__` is modelled as `True` (the int 1), its value when Python runs without `-O`; under `-O` it is `False`.
- Eval.Atom: `None`, and names bound in the assembler module's globals or in Python's builtins other than `__debug__` (`eval` is called with the module's globals), evaluate to objects that are not ints. The model reports them as an evaluation failure. The source then raises in the constructor, except for a nullary op, which ignores its data: `HLT None` assembles in the source and fails in the model.
- `int()` is modelled for ASCII digits with an optional sign and surrounding whitespace. Unicode digits and underscores are not modelled.
- The CLI, logging, memory dump and packaging (bin/lrc.py, bin/lrcc.py, lrc/lrc.py:461-511, lrc.py:306-338, setup.py) are not modelled.
- `Interpreter.Data` (lrc/lrc.py:218-234) is not modelled: it is never used.
- `Memory.__iter__` (lrc/lrc.py:40-42, lrc/core.py:148-150, lrc.py:24-26) is not modelled: only the memory dump uses it.
- The packaged keyword-argument constructor calls (lrc/compiler.py:77,132; lrc/interpreter.py:91) raise TypeError against constructors that take one `data` argument. The packaged dialect therefore stops at the raw (mnemonic, `lo`, `hi`) it would pass. `Wide.Decode` stops at the decoded mnemonic and operands.
- `execute`, `core.Terminate` and `load_program` are called but defined nowhere (lrc/interpreter.py:59,68; bin/lrc.py:67). The packaged step uses the reference handlers instead.
- Read and write index assertions (`0 <= index`) are preconditions, because callers pass a non-negative index. The one exception is the tick's fetch at a negative `ptr`, which is modelled as a NegativeAddress fault.
- Fetching at a negative `ptr` cannot happen from a program's start. Only `Machine.RunKeepsPtrInBounds` states this, and only for the reference.
- A value the loader (lrc/lrc.py:484-485, lrc.py:324-325) cannot write stops the load at that value. In the source the assertion ends the program.
- Early.DecodeAgrees and Early.ValueRoundTrip say nothing about an early op with `lo` or `hi` at or above 2^16. The early constructors do not mask, and such an operand spills into the next field.
- Assembler.ReferenceOfOperands, Assembler.PackagedOfOperands and Assembler.CompileOfListing are stated for canonical ops only: operands below 2^16, and unused operands 0. A larger literal is masked by the reference constructor, so it does not read back as written.
- Assembler.ParsePackagedFirstPart and Assembler.ParsePackagedPair: the packaged `lo`/`hi` are the raw `eval` results. No op object is built, because the keyword call fails.
