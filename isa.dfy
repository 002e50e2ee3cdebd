/**
 * The instruction set shared by every draft: thirteen operations, each with
 * a three-letter mnemonic, a 4-bit opcode and a number of operands.
 */
module Isa {
  import opened Wrappers

  datatype Mnemonic = NUL | STA | LDA | INC | DEC | ADD | SUB | JMP | MOV | CMP | BRA | BRB | HLT

  /** Which constructor base class the operation uses: no operand, `lo`, or `lo` and `hi`. */
  datatype Arity = Nullary | Unary | Binary

  function Opcode(m: Mnemonic): (n: nat)
    ensures n < 13
  {
    match m
    case NUL => 0
    case STA => 1
    case LDA => 2
    case INC => 3
    case DEC => 4
    case ADD => 5
    case SUB => 6
    case JMP => 7
    case MOV => 8
    case CMP => 9
    case BRA => 10
    case BRB => 11
    case HLT => 12
  }

  /** The opcode table lookup: defined exactly on 0..12. */
  function FromOpcode(n: int): (r: Option<Mnemonic>)
    ensures r.Some? <==> 0 <= n < 13
    ensures r.Some? ==> Opcode(r.value) == n
  {
    if n == 0 then Some(NUL)
    else if n == 1 then Some(STA)
    else if n == 2 then Some(LDA)
    else if n == 3 then Some(INC)
    else if n == 4 then Some(DEC)
    else if n == 5 then Some(ADD)
    else if n == 6 then Some(SUB)
    else if n == 7 then Some(JMP)
    else if n == 8 then Some(MOV)
    else if n == 9 then Some(CMP)
    else if n == 10 then Some(BRA)
    else if n == 11 then Some(BRB)
    else if n == 12 then Some(HLT)
    else None
  }

  function Name(m: Mnemonic): (s: string)
    ensures |s| == 3
  {
    match m
    case NUL => "NUL"
    case STA => "STA"
    case LDA => "LDA"
    case INC => "INC"
    case DEC => "DEC"
    case ADD => "ADD"
    case SUB => "SUB"
    case JMP => "JMP"
    case MOV => "MOV"
    case CMP => "CMP"
    case BRA => "BRA"
    case BRB => "BRB"
    case HLT => "HLT"
  }

  /** The assembler's mnemonic table lookup. */
  function FromName(s: string): (r: Option<Mnemonic>)
    ensures r.Some? ==> Name(r.value) == s
  {
    if s == "NUL" then Some(NUL)
    else if s == "STA" then Some(STA)
    else if s == "LDA" then Some(LDA)
    else if s == "INC" then Some(INC)
    else if s == "DEC" then Some(DEC)
    else if s == "ADD" then Some(ADD)
    else if s == "SUB" then Some(SUB)
    else if s == "JMP" then Some(JMP)
    else if s == "MOV" then Some(MOV)
    else if s == "CMP" then Some(CMP)
    else if s == "BRA" then Some(BRA)
    else if s == "BRB" then Some(BRB)
    else if s == "HLT" then Some(HLT)
    else None
  }

  function ArityOf(m: Mnemonic): Arity {
    match m
    case NUL | HLT => Nullary
    case STA | LDA | INC | DEC | JMP | BRA | BRB => Unary
    case ADD | SUB | MOV | CMP => Binary
  }

  /** Opcodes and mnemonics are in one-to-one correspondence: the table lookup inverts `Opcode`. */
  lemma OpcodeBijection(m: Mnemonic, n: int)
    ensures FromOpcode(Opcode(m)) == Some(m)
    ensures FromOpcode(n) == Some(m) <==> n == Opcode(m)
  {
    match m
    case NUL => {}
    case STA => {}
    case LDA => {}
    case INC => {}
    case DEC => {}
    case ADD => {}
    case SUB => {}
    case JMP => {}
    case MOV => {}
    case CMP => {}
    case BRA => {}
    case BRB => {}
    case HLT => {}
  }

  /** Each mnemonic has exactly one name and the name lookup inverts `Name`. */
  lemma NameBijection(m: Mnemonic, s: string)
    ensures FromName(Name(m)) == Some(m)
    ensures FromName(s) == Some(m) <==> s == Name(m)
  {
    match m
    case NUL => {}
    case STA => {}
    case LDA => {}
    case INC => {}
    case DEC => {}
    case ADD => {}
    case SUB => {}
    case JMP => {}
    case MOV => {}
    case CMP => {}
    case BRA => {}
    case BRB => {}
    case HLT => {}
  }

  /** Every mnemonic is three upper-case letters. */
  lemma NameIsUpper(m: Mnemonic)
    ensures forall k :: 0 <= k < 3 ==> 'A' <= Name(m)[k] <= 'Z'
  {
    match m
    case NUL => {}
    case STA => {}
    case LDA => {}
    case INC => {}
    case DEC => {}
    case ADD => {}
    case SUB => {}
    case JMP => {}
    case MOV => {}
    case CMP => {}
    case BRA => {}
    case BRB => {}
    case HLT => {}
  }
}
