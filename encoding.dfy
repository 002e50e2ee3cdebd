/**
 * The instruction word of the reference interpreter (lrc/lrc.py): the opcode
 * in bits 0-3, `lo` from bit 4 and `hi` from bit 20. Masks and shifts are
 * written as arithmetic: `x & (2^k - 1)` is `x % 2^k`, `x >> k` is
 * `x / 2^k` and `x << k` is `x * 2^k` (Dafny's `/` and `%` with a positive
 * divisor floor, as Python's shifts and masks do).
 */
module Encoding {
  import opened Wrappers
  import opened Isa
  import opened Memory

  const MASK16: int := 0x1_0000      // lo and hi are masked to 16 bits
  const LO_SHIFT: int := 0x10        // lo << 4
  const HI_SHIFT: int := 0x10_0000   // hi << 20

  /** An operation as its constructor leaves it: mnemonic and opcode come from the class. */
  datatype Instruction = Instruction(mnemonic: Mnemonic, lo: int, hi: int)

  /** What the assembler hands a constructor: the empty operand text, or `eval`'s int or tuple. */
  datatype Data = Blank | Scalar(n: int) | Tuple(items: seq<int>)

  /**
   * The op constructors: a nullary op ignores its data; a unary op takes
   * `int(data)` masked to 16 bits; a binary op unpacks a pair and masks both.
   * None is the TypeError or ValueError the source raises for any other data.
   */
  function Construct(m: Mnemonic, data: Data): (r: Option<Instruction>)
    ensures r.Some? ==> r.value.mnemonic == m && 0 <= r.value.lo < MASK16 && 0 <= r.value.hi < MASK16
    ensures r.Some? ==> ArityOf(m) != Binary ==> r.value.hi == 0
    ensures r.Some? <==> match ArityOf(m)
                         case Nullary => true
                         case Unary => data.Scalar?
                         case Binary => data.Tuple? && |data.items| == 2
    ensures r.Some? ==> ArityOf(m) == Nullary ==> r.value.lo == 0
    ensures r.Some? ==> ArityOf(m) == Unary ==> (r.value.lo - data.n) % MASK16 == 0
    ensures r.Some? ==> ArityOf(m) == Binary ==>
      (r.value.lo - data.items[0]) % MASK16 == 0 && (r.value.hi - data.items[1]) % MASK16 == 0
  {
    match ArityOf(m)
    case Nullary => Some(Instruction(m, 0, 0))
    case Unary =>
      if data.Scalar? then Some(Instruction(m, data.n % MASK16, 0)) else None
    case Binary =>
      if data.Tuple? && |data.items| == 2 then
        Some(Instruction(m, data.items[0] % MASK16, data.items[1] % MASK16))
      else
        None
  }

  /** The `value` property: the word the loader writes into memory. */
  function Value(ins: Instruction): int {
    match ArityOf(ins.mnemonic)
    case Nullary => Opcode(ins.mnemonic)
    case Unary => Opcode(ins.mnemonic) + ins.lo * LO_SHIFT
    case Binary => Opcode(ins.mnemonic) + ins.lo * LO_SHIFT + ins.hi * HI_SHIFT
  }

  /** `Interpreter.interpret`: split a word into opcode, lo and hi. */
  function Interpret(data: int): (int, int, int) {
    var rest := data / LO_SHIFT;
    (data % LO_SHIFT, rest % MASK16, (rest / MASK16) % MASK16)
  }

  /** Packing three in-range fields and interpreting the result gives them back. */
  lemma UnpackPacked(op: int, lo: int, hi: int)
    requires 0 <= op < 16 && 0 <= lo < MASK16 && 0 <= hi < MASK16
    ensures Interpret(op + lo * LO_SHIFT + hi * HI_SHIFT) == (op, lo, hi)
  {
    var data := op + lo * LO_SHIFT + hi * HI_SHIFT;
    assert data / LO_SHIFT == lo + hi * MASK16;
    assert data % LO_SHIFT == op;
  }

  /** Decoding a constructed op's value recovers its opcode, lo and hi. */
  lemma RoundTrip(m: Mnemonic, data: Data, ins: Instruction)
    requires Construct(m, data) == Some(ins)
    ensures Interpret(Value(ins)) == (Opcode(m), ins.lo, ins.hi)
    ensures FromOpcode(Interpret(Value(ins)).0) == Some(m)
  {
    UnpackPacked(Opcode(m), ins.lo, ins.hi);
    OpcodeBijection(m, Opcode(m));
  }

  /**
   * A nullary or unary op always fits a memory word; a binary op fits exactly
   * when its `hi` is below 2^12, so loading a larger `hi` fails the write check.
   */
  lemma ValueFitsWord(m: Mnemonic, data: Data, ins: Instruction)
    requires Construct(m, data) == Some(ins)
    ensures ArityOf(m) != Binary ==> IsWord(Value(ins))
    ensures ArityOf(m) == Binary ==> (IsWord(Value(ins)) <==> ins.hi < 0x1000)
  {
  }

  /** A word in memory decodes to an opcode below 16, a 16-bit lo and a 12-bit hi, and is their packing. */
  lemma InterpretWord(w: Word)
    ensures 0 <= Interpret(w).0 < 16 && 0 <= Interpret(w).1 < MASK16 && 0 <= Interpret(w).2 < 0x1000
    ensures w == Interpret(w).0 + Interpret(w).1 * LO_SHIFT + Interpret(w).2 * HI_SHIFT
  {
    var rest := w / LO_SHIFT;
    assert rest < 0x1000_0000;
    assert rest / MASK16 < 0x1000;
    assert rest == rest % MASK16 + (rest / MASK16) * MASK16;
  }
}
