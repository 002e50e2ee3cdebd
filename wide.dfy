/**
 * The packaged interpreter of lrc/interpreter.py. Its decoder reads a word in
 * a layout of its own: the opcode in bits 28-31, `lo` in bits 14-27 and `hi`
 * in bits 0-13, each operand field wrapped in a 13-bit `Core.Operand`. This
 * is not the layout the packaged ops are encoded in (`Core`), so no round
 * trip between the two is claimed. The interpreter's op objects have no
 * `execute` of their own; the handlers used here are those of the reference
 * interpreter (`Machine.Exec`), applied to the operands' integer values.
 */
module Wide {
  import opened Wrappers
  import opened Isa
  import opened Memory
  import opened Core
  import opened Machine
  import Cpu

  const INS_SHIFT: int := 0x1000_0000  // 2^28
  const LO_SHIFT: int := 0x4000        // 2^14
  const FIELD_LIMIT: int := 0x4000     // a 14-bit field

  // The three masks of `interpret`, as 32-bit vectors.
  const MASK_IN: bv32 := 0xF000_0000  // 2^32 - 2^28
  const MASK_LO: bv32 := 0x0FFF_C000  // 2^28 - 2^14
  const MASK_HI: bv32 := 0x0000_3FFF  // 2^14 - 2^0

  /** The masks are pairwise disjoint and together cover all 32 bits. */
  lemma MasksPartition()
    ensures MASK_IN & MASK_LO == 0 && MASK_IN & MASK_HI == 0 && MASK_LO & MASK_HI == 0
    ensures MASK_IN | MASK_LO | MASK_HI == 0xFFFF_FFFF
  {
  }

  /** The raw fields `(data & mask_in) >> 28`, `(data & mask_lo) >> 14` and `data & mask_hi`. */
  function Fields(data: int): (f: (int, int, int))
    ensures 0 <= f.0 < 16 && 0 <= f.1 < FIELD_LIMIT && 0 <= f.2 < FIELD_LIMIT
  {
    ((data / INS_SHIFT) % 16, (data / LO_SHIFT) % FIELD_LIMIT, data % FIELD_LIMIT)
  }

  /** A word is exactly the packing of its three fields. */
  lemma FieldsPack(data: Word)
    ensures var (ins, lo, hi) := Fields(data);
      data == ins * INS_SHIFT + lo * LO_SHIFT + hi
  {
    var rest := data / LO_SHIFT;
    assert data == rest * LO_SHIFT + data % LO_SHIFT;
    assert rest < 0x4_0000;
    assert rest == (rest / FIELD_LIMIT) * FIELD_LIMIT + rest % FIELD_LIMIT;
    assert rest / FIELD_LIMIT == data / INS_SHIFT;
  }

  /**
   * `interpret`: the opcode table lookup of the top field, with both operand
   * fields wrapped as operands. None is the KeyError for opcodes 13-15.
   */
  function Decode(data: int): (r: Option<(Mnemonic, Operand, Operand)>)
    ensures r.Some? <==> Fields(data).0 < 13
    ensures r.Some? ==> Opcode(r.value.0) == Fields(data).0
    ensures r.Some? ==> ToInt(r.value.1) == Fields(data).1 % OPERAND_LIMIT
    ensures r.Some? ==> ToInt(r.value.2) == Fields(data).2 % OPERAND_LIMIT
  {
    var (ins, lo, hi) := Fields(data);
    ToIntOfOperand(lo);
    ToIntOfOperand(hi);
    match FromOpcode(ins)
    case None => None
    case Some(m) => Some((m, OperandOf(lo), OperandOf(hi)))
  }

  /** Bit 13 of each operand field is lost: fields that differ only there decode alike. */
  lemma FieldBit13Dropped(field: int)
    requires 0 <= field < OPERAND_LIMIT
    ensures OperandOf(field + OPERAND_LIMIT) == OperandOf(field)
    ensures ToInt(OperandOf(field)) == field
  {
    ToIntOfOperand(field);
    ToIntOfOperand(field + OPERAND_LIMIT);
    assert (field + OPERAND_LIMIT) % REF_BIT == field % REF_BIT;
    assert (field + OPERAND_LIMIT) / REF_BIT == field / REF_BIT + 2;
  }

  /** The reference word of `JMP 40` does not decode as a jump here: the two layouts disagree. */
  lemma LayoutsDisagree()
    ensures Encoding.Value(Encoding.Instruction(JMP, 40, 0)) == 647
    ensures Decode(647) == Some((NUL, OperandOf(0), OperandOf(647)))
  {
  }

  /** One tick: fetch, decode, run the handler, then increment `ptr` and check it against `len(memory)`. */
  ghost function WideStep(c: Config): Outcome {
    if c.ptr < 0 then
      Outcome(Faulted(NegativeAddress(c.ptr)), c)
    else
      match Decode(Get(c.ram, c.ptr))
      case None => Outcome(Faulted(UnknownOpcode(Fields(Get(c.ram, c.ptr)).0)), c)
      case Some((m, lo, hi)) => Advance(Exec(m, ToInt(lo), ToInt(hi), c))
  }

  /**
   * A completed handler is followed by `ptr + 1`, a SegmentationFault
   * exactly when that passes `len(memory)`; a Terminate or a fault ends the
   * step without touching `ptr`.
   */
  lemma WideStepAdvances(c: Config)
    requires c.ptr >= 0 && Decode(Get(c.ram, c.ptr)).Some?
    ensures var (m, lo, hi) := Decode(Get(c.ram, c.ptr)).value;
      var e := Exec(m, ToInt(lo), ToInt(hi), c);
      match e.signal
      case Proceed =>
        WideStep(c).config == e.config.(ptr := e.config.ptr + 1)
        && (WideStep(c).status == Faulted(SegmentationFault) <==> e.config.ptr + 1 > Len(e.config.ram))
        && (WideStep(c).status == Running <==> e.config.ptr + 1 <= Len(e.config.ram))
      case Terminate => WideStep(c) == Outcome(Halted, e.config)
      case Raise(f) => WideStep(c) == Outcome(Faulted(f), e.config)
  {
  }

  /** Opcodes 13 to 15 in the top field fault at decode and change nothing. */
  lemma WideUnknownOpcodeFaults(c: Config)
    requires c.ptr >= 0 && Fields(Get(c.ram, c.ptr)).0 >= 13
    ensures WideStep(c) == Outcome(Faulted(UnknownOpcode(Fields(Get(c.ram, c.ptr)).0)), c)
  {
  }

  /** At most `fuel` ticks of this interpreter. */
  ghost function WideRun(c: Config, fuel: nat): Outcome {
    Iterate(WideStep, c, fuel)
  }

  /** A Terminate or any fault ends the run: more fuel changes nothing. */
  lemma WideStoppedRunIsStable(c: Config, fuel: nat, extra: nat)
    requires WideRun(c, fuel).status != Running
    ensures WideRun(c, fuel + extra) == WideRun(c, fuel)
  {
    IterateSplits(WideStep, c, fuel, extra);
  }

  /** The `tick` body on a memory object. */
  method WideTick(mem: Memory) returns (status: Status)
    modifies mem
    ensures WideStep(old(Cpu.State(mem))) == Outcome(status, Cpu.State(mem))
  {
    if mem.ptr < 0 {
      return Faulted(NegativeAddress(mem.ptr));
    }
    var word := mem.Read(mem.ptr);
    var decoded := Decode(word);
    if decoded.None? {
      return Faulted(UnknownOpcode(Fields(word).0));
    }
    var (m, lo, hi) := decoded.value;
    var signal := Cpu.Execute(mem, m, ToInt(lo), ToInt(hi));
    match signal
    case Terminate =>
      status := Halted;
    case Raise(f) =>
      status := Faulted(f);
    case Proceed =>
      mem.ptr := mem.ptr + 1;
      var n := mem.Length();
      status := if mem.ptr > n then Faulted(SegmentationFault) else Running;
  }
}
