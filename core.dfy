/**
 * The packaged op definitions of lrc/core.py (repeated verbatim in
 * lrc/opcode.py): a 13-bit `Operand` with a 12-bit value and a reference bit,
 * and immutable ops that carry their mnemonic, opcode, encoded value and raw
 * operands. Unlike the reference draft, the constructors do not mask `lo` and
 * `hi`; the word layout (opcode in bits 0-3, lo from bit 4, hi from bit 20) is
 * the same.
 */
module Core {
  import opened Wrappers
  import opened Isa
  import opened Encoding

  const REF_BIT: int := 0x1000     // MASK_REF = 2^12
  const OPERAND_LIMIT: int := 0x2000  // an Operand holds 13 bits

  /** `Operand(value, ref)`: 12 bits of value and the reference flag in bit 12. */
  datatype Operand = Operand(value: int, ref: bool)

  /** `Operand.__new__`: keep the low 12 bits as the value and test bit 12 for the flag. */
  function OperandOf(data: int): (o: Operand)
    ensures 0 <= o.value < REF_BIT
  {
    // `int(data) & MASK_REF != 0` binds as `(data & MASK_REF) != 0`
    Operand(data % REF_BIT, (data / REF_BIT) % 2 == 1)
  }

  /** `Operand.__int__`: the value, plus 2^12 when the reference flag is set. */
  function ToInt(o: Operand): int {
    if o.ref then o.value + REF_BIT else o.value
  }

  /** Converting to an operand and back keeps exactly the low 13 bits. */
  lemma ToIntOfOperand(data: int)
    ensures ToInt(OperandOf(data)) == data % OPERAND_LIMIT
    ensures 0 <= data < OPERAND_LIMIT ==> ToInt(OperandOf(data)) == data
  {
    var q := data / OPERAND_LIMIT;
    var r := data % OPERAND_LIMIT;
    assert data == q * OPERAND_LIMIT + r;
    assert data / REF_BIT == 2 * q + r / REF_BIT;
    assert data % REF_BIT == r % REF_BIT;
  }

  /** An operand whose value is in range is rebuilt unchanged from its integer. */
  lemma OperandOfToInt(o: Operand)
    requires 0 <= o.value < REF_BIT
    ensures OperandOf(ToInt(o)) == o
  {
  }

  /** The `BaseOp` namedtuple. */
  datatype CoreOp = CoreOp(mnemonic: string, opcode: nat, value: int, lo: int, hi: int)

  /**
   * The op constructors: a nullary op ignores its data, a unary op takes
   * `int(data)` as `lo` and a binary op unpacks a pair, none of them masked.
   * None is the TypeError or ValueError raised for any other data.
   */
  function Build(m: Mnemonic, data: Data): (r: Option<CoreOp>)
    ensures r.Some? <==> match ArityOf(m)
                         case Nullary => true
                         case Unary => data.Scalar?
                         case Binary => data.Tuple? && |data.items| == 2
    ensures r.Some? ==> FromName(r.value.mnemonic) == Some(m) && FromOpcode(r.value.opcode) == Some(m)
    ensures r.Some? ==> ArityOf(m) != Binary ==> r.value.hi == 0
    ensures r.Some? ==> ArityOf(m) == Nullary ==> r.value.lo == 0
  {
    NameBijection(m, Name(m));
    OpcodeBijection(m, Opcode(m));
    match ArityOf(m)
    case Nullary =>
      Some(CoreOp(Name(m), Opcode(m), Opcode(m), 0, 0))
    case Unary =>
      if data.Scalar? then
        var lo := data.n;
        Some(CoreOp(Name(m), Opcode(m), Opcode(m) + lo * LO_SHIFT, lo, 0))
      else
        None
    case Binary =>
      if data.Tuple? && |data.items| == 2 then
        var lo := data.items[0];
        var hi := data.items[1];
        Some(CoreOp(Name(m), Opcode(m), Opcode(m) + lo * LO_SHIFT + hi * HI_SHIFT, lo, hi))
      else
        None
  }

  /**
   * The packaged ops use the reference layout: a core op's value is the
   * reference `value` of the same mnemonic and operands, and when the
   * operands are 16-bit it is exactly the reference op built from the same
   * data.
   */
  lemma BuildAgreesWithReference(m: Mnemonic, data: Data)
    requires Build(m, data).Some?
    ensures var op := Build(m, data).value;
      op.value == Value(Instruction(m, op.lo, op.hi))
    ensures var op := Build(m, data).value;
      0 <= op.lo < MASK16 && 0 <= op.hi < MASK16 ==>
        Construct(m, data) == Some(Instruction(m, op.lo, op.hi))
  {
  }

  /** With 16-bit operands, the reference decoder recovers a core op's opcode, `lo` and `hi`. */
  lemma BuildDecodes(m: Mnemonic, data: Data)
    requires Build(m, data).Some?
    requires 0 <= Build(m, data).value.lo < MASK16 && 0 <= Build(m, data).value.hi < MASK16
    ensures var op := Build(m, data).value;
      Interpret(op.value) == (op.opcode, op.lo, op.hi)
  {
    var op := Build(m, data).value;
    BuildAgreesWithReference(m, data);
    RoundTrip(m, data, Instruction(m, op.lo, op.hi));
  }

  /** A unary op whose `lo` does not fit 16 bits spills into the `hi` field of the reference layout. */
  lemma UnmaskedLoSpills()
    ensures Build(JMP, Scalar(MASK16)).Some?
    ensures Interpret(Build(JMP, Scalar(MASK16)).value.value) == (Opcode(JMP), 0, 1)
  {
    assert Build(JMP, Scalar(MASK16)).value.value == 7 + MASK16 * LO_SHIFT;
    UnpackPacked(7, 0, 1);
  }
}
