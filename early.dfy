/**
 * The early single-file draft (lrc.py): eight operations numbered 1 to 8
 * exactly as the reference numbers them, a decoder that keeps 4 bits of
 * opcode and 32 bits of operand data, a tick that stops on a zero word and
 * never checks `ptr` against the memory's length, and a compiler that splits
 * operands on whitespace and skips lines it does not know.
 *
 * The draft's `Memory` is the reference `Memory` class, its handlers do what
 * the reference's `_store` ... `_move` do (`Machine.Exec`), and an op's
 * `value` is `Encoding.Value`, so those are shared rather than restated.
 */
module Early {
  import opened Wrappers
  import opened Isa
  import opened Memory
  import opened Text
  import Encoding
  import Machine
  import Cpu

  const OPCODE_LIMIT: int := 0x10          // `2**4`: the opcode mask is `2**4 - 1`
  const DATA_LIMIT: int := 0x1_0000_0000   // `2**32`: the data mask is `2**32 - 1`
  const OPERAND_LIMIT: int := 0x1_0000     // `2**16`: the handlers' operand mask

  // ---------------------------------------------------------------------
  // Decoding

  /** The operations of the draft: those numbered 1 to 8. */
  predicate InDraft(m: Mnemonic) {
    1 <= Opcode(m) <= 8
  }

  /** `self.opcodes[opcode]`: the table has entries for 1 to 8 only. */
  function DraftOp(opcode: int): (r: Option<Mnemonic>)
    ensures r.Some? <==> 1 <= opcode <= 8
    ensures r.Some? ==> Opcode(r.value) == opcode && InDraft(r.value)
  {
    if 1 <= opcode <= 8 then FromOpcode(opcode) else None
  }

  /** `interpret`: `data & (2**4 - 1)` and `(data >> 4) & (2**32 - 1)`. */
  function Decode(data: nat): (r: (int, int))
    ensures 0 <= r.0 < OPCODE_LIMIT && 0 <= r.1 < DATA_LIMIT
  {
    (data % OPCODE_LIMIT, (data / OPCODE_LIMIT) % DATA_LIMIT)
  }

  /** The handlers' `lo = data & mask` and `hi = (data >> 16) & mask`. */
  function Split16(data: int): (r: (int, int))
    ensures 0 <= r.0 < OPERAND_LIMIT && 0 <= r.1 < OPERAND_LIMIT
  {
    (data % OPERAND_LIMIT, (data / OPERAND_LIMIT) % OPERAND_LIMIT)
  }

  /**
   * The draft's two-stage decode finds the same opcode, `lo` and `hi` as the
   * reference's one-stage `interpret`: dropping the bits of the data above
   * 32 loses nothing the 16-bit operand masks would keep.
   */
  lemma DecodeAgrees(data: nat)
    ensures var (opcode, rest) := Decode(data);
      (opcode, Split16(rest).0, Split16(rest).1) == Encoding.Interpret(data)
  {
    var x := data / OPCODE_LIMIT;
    var q := x / DATA_LIMIT;
    var r := x % DATA_LIMIT;
    assert x == q * DATA_LIMIT + r;
    assert q * DATA_LIMIT == (q * OPERAND_LIMIT) * OPERAND_LIMIT;
    assert x % OPERAND_LIMIT == r % OPERAND_LIMIT by {
      assert x == (q * OPERAND_LIMIT) * OPERAND_LIMIT + r;
    }
    assert x / OPERAND_LIMIT == q * OPERAND_LIMIT + r / OPERAND_LIMIT by {
      assert x == (q * OPERAND_LIMIT + r / OPERAND_LIMIT) * OPERAND_LIMIT + r % OPERAND_LIMIT;
    }
    assert (x / OPERAND_LIMIT) % OPERAND_LIMIT == (r / OPERAND_LIMIT) % OPERAND_LIMIT;
  }

  /** An op of the draft: `hi` is 0 unless it takes two operands. */
  predicate Wellformed(ins: Encoding.Instruction) {
    InDraft(ins.mnemonic) && (ArityOf(ins.mnemonic) != Binary ==> ins.hi == 0)
  }

  /**
   * An op's `value`, decoded, names the op again and, when `lo` and `hi`
   * are below 2^16, gives them back.
   */
  lemma ValueRoundTrip(ins: Encoding.Instruction)
    requires Wellformed(ins) && 0 <= ins.lo < OPERAND_LIMIT && 0 <= ins.hi < OPERAND_LIMIT
    ensures Encoding.Value(ins) >= 0
    ensures var (opcode, rest) := Decode(Encoding.Value(ins));
      DraftOp(opcode) == Some(ins.mnemonic) && Split16(rest) == (ins.lo, ins.hi)
  {
    var m := ins.mnemonic;
    assert Encoding.Value(ins) == Opcode(m) + ins.lo * Encoding.LO_SHIFT + ins.hi * Encoding.HI_SHIFT;
    Encoding.UnpackPacked(Opcode(m), ins.lo, ins.hi);
    DecodeAgrees(Encoding.Value(ins));
    OpcodeBijection(m, Opcode(m));
  }

  // ---------------------------------------------------------------------
  // The tick

  /** After a handler: a completed one is followed by `ptr += 1`; there is no bounds check. */
  function Advance(e: Machine.Effect): Machine.Outcome {
    match e.signal
    case Terminate => Machine.Outcome(Machine.Halted, e.config)
    case Raise(f) => Machine.Outcome(Machine.Faulted(f), e.config)
    case Proceed => Machine.Outcome(Machine.Running, e.config.(ptr := e.config.ptr + 1))
  }

  /**
   * One `tick`: a zero word shuts the loop down; otherwise decode, look the
   * opcode up (a KeyError faults) and run the handler.
   */
  function Step(c: Machine.Config): Machine.Outcome {
    if c.ptr < 0 then
      Machine.Outcome(Machine.Faulted(Machine.NegativeAddress(c.ptr)), c)
    else
      var data := Get(c.ram, c.ptr);
      if data == 0 then
        Machine.Outcome(Machine.Halted, c)
      else
        var (opcode, rest) := Decode(data);
        match DraftOp(opcode)
        case None => Machine.Outcome(Machine.Faulted(Machine.UnknownOpcode(opcode)), c)
        case Some(m) => Advance(Machine.Exec(m, Split16(rest).0, Split16(rest).1, c))
  }

  /** Past the last written cell every word reads 0, so the run stops cleanly there. */
  lemma OffTheEndHalts(c: Machine.Config)
    requires 0 <= c.ptr && Len(c.ram) <= c.ptr
    ensures Step(c) == Machine.Outcome(Machine.Halted, c)
  {
    KeysBelowLen(c.ram);
    assert c.ptr !in c.ram;
  }

  /** Any zero word stops the run cleanly: a cell never written, or one written or counted down to 0. */
  lemma ZeroWordHalts(c: Machine.Config)
    requires 0 <= c.ptr && Get(c.ram, c.ptr) == 0
    ensures Step(c) == Machine.Outcome(Machine.Halted, c)
  {
  }

  /**
   * A completed handler leaves the run going with `ptr` one past the
   * handler's value, so a non-jumping op moves `ptr` by exactly one; a
   * step never ends in a SegmentationFault.
   */
  lemma StepAdvances(c: Machine.Config)
    requires c.ptr >= 0 && Get(c.ram, c.ptr) != 0
    requires DraftOp(Decode(Get(c.ram, c.ptr)).0).Some?
    ensures var (opcode, rest) := Decode(Get(c.ram, c.ptr));
      var m := DraftOp(opcode).value;
      var e := Machine.Exec(m, Split16(rest).0, Split16(rest).1, c);
      (e.signal == Machine.Proceed ==> Step(c) == Machine.Outcome(Machine.Running, e.config.(ptr := e.config.ptr + 1)))
      && (e.signal == Machine.Proceed && m != JMP ==> Step(c).config.ptr == c.ptr + 1)
    ensures Step(c).status != Machine.Faulted(Machine.SegmentationFault)
  {
  }

  /** JMP sets `ptr` to `lo - 1`, and the increment makes `lo` the next fetch. */
  lemma JumpLands(c: Machine.Config)
    requires c.ptr >= 0 && Get(c.ram, c.ptr) != 0
    requires DraftOp(Decode(Get(c.ram, c.ptr)).0) == Some(JMP)
    ensures Step(c) == Machine.Outcome(Machine.Running, c.(ptr := Split16(Decode(Get(c.ram, c.ptr)).1).0))
  {
  }

  /** A nonzero word whose opcode is 0 or 9 to 15 has no table entry: the step faults and changes nothing. */
  lemma UnknownOpcodeFaults(c: Machine.Config)
    requires c.ptr >= 0 && Get(c.ram, c.ptr) != 0
    requires var opcode := Decode(Get(c.ram, c.ptr)).0; opcode == 0 || opcode >= 9
    ensures Step(c) == Machine.Outcome(Machine.Faulted(Machine.UnknownOpcode(Decode(Get(c.ram, c.ptr)).0)), c)
  {
  }

  /** At most `fuel` ticks of the draft. */
  function Ticks(c: Machine.Config, fuel: nat): Machine.Outcome {
    Machine.Iterate(Step, c, fuel)
  }

  /** A run that stopped with fuel to spare has stopped for good. */
  lemma StoppedRunIsStable(c: Machine.Config, fuel: nat, extra: nat)
    requires Ticks(c, fuel).status != Machine.Running
    ensures Ticks(c, fuel + extra) == Ticks(c, fuel)
  {
    Machine.IterateSplits(Step, c, fuel, extra);
  }

  /** The body of `tick` on a memory object. */
  method Tick(mem: Memory) returns (status: Machine.Status)
    modifies mem
    ensures Step(old(Cpu.State(mem))) == Machine.Outcome(status, Cpu.State(mem))
  {
    if mem.ptr < 0 {
      return Machine.Faulted(Machine.NegativeAddress(mem.ptr));
    }
    var data := mem.Read(mem.ptr);
    if data == 0 {
      return Machine.Halted;
    }
    var (opcode, rest) := Decode(data);
    var entry := DraftOp(opcode);
    if entry.None? {
      return Machine.Faulted(Machine.UnknownOpcode(opcode));
    }
    var (lo, hi) := Split16(rest);
    var signal := Cpu.Execute(mem, entry.value, lo, hi);
    match signal
    case Terminate =>
      status := Machine.Halted;
    case Raise(f) =>
      status := Machine.Faulted(f);
    case Proceed =>
      mem.ptr := mem.ptr + 1;
      status := Machine.Running;
  }

  /** `run`: tick until a tick stops, for at most `fuel` ticks. */
  method Run(mem: Memory, fuel: nat) returns (status: Machine.Status)
    modifies mem
    ensures Ticks(old(Cpu.State(mem)), fuel) == Machine.Outcome(status, Cpu.State(mem))
  {
    ghost var start := Cpu.State(mem);
    status := Machine.Running;
    var k: nat := 0;
    while k < fuel && status == Machine.Running
      invariant k <= fuel
      invariant Ticks(start, k) == Machine.Outcome(status, Cpu.State(mem))
      decreases fuel - k
    {
      Machine.IterateSplits(Step, start, k, 1);
      status := Tick(mem);
      k := k + 1;
    }
    if k < fuel {
      StoppedRunIsStable(start, k, fuel - k);
    }
  }

  // ---------------------------------------------------------------------
  // The compiler

  /** Why `compile` raises: an exception of the line's own unpacking or `int()`. */
  datatype DraftError =
    | MissingOperand(line: string)   // no space: `line.split(' ', 1)` does not unpack into two
    | OperandCount(data: string)     // `data.split()` does not unpack into two operands
    | BadInteger(text: string)       // `int()` raises ValueError

  /** The mnemonics the compiler tests for; any other text names no op. */
  function DraftMnemonic(name: string): (r: Option<Mnemonic>)
    ensures r.Some? ==> Name(r.value) == name && InDraft(r.value)
  {
    match FromName(name)
    case Some(m) => if InDraft(m) then Some(m) else None
    case None => None
  }

  /** The draft's mnemonics are recognised. */
  lemma DraftMnemonicOfName(m: Mnemonic)
    requires InDraft(m)
    ensures DraftMnemonic(Name(m)) == Some(m)
  {
    NameBijection(m, Name(m));
  }

  /** A processed line: nonempty and not starting with `#`. */
  predicate IsProcessed(line: string) {
    line != [] && line[0] != '#'
  }

  /**
   * One line of `compile`: skipped, one op, or the exception it raises. The
   * text before the first space is the mnemonic; a one-operand op parses
   * the rest with `int()`, a two-operand op splits it on whitespace first.
   */
  function ParseLine(line: string): (r: Result<Option<Encoding.Instruction>, DraftError>)
    ensures !IsProcessed(line) ==> r == Success(None)
    ensures IsProcessed(line) && ' ' !in line ==> r == Failure(MissingOperand(line))
    ensures r.Success? && r.value.Some? ==>
      Wellformed(r.value.value) && IsProcessed(line) && |line| >= 4 && line[..3] == Name(r.value.value.mnemonic) && line[3] == ' '
  {
    if !IsProcessed(line) then
      Success(None)
    else
      var parts := SplitOnce(line, ' ');
      if |parts| != 2 then
        Failure(MissingOperand(line))
      else
        var data := parts[1];
        match DraftMnemonic(parts[0])
        case None => Success(None)
        case Some(m) =>
          assert line[..3] == parts[0] && line[3] == ' ';
          if ArityOf(m) == Binary then
            var ws := Words(data);
            if |ws| != 2 then
              Failure(OperandCount(data))
            else
              match ParseInt(ws[0])
              case None => Failure(BadInteger(ws[0]))
              case Some(lo) =>
                match ParseInt(ws[1])
                case None => Failure(BadInteger(ws[1]))
                case Some(hi) => Success(Some(Encoding.Instruction(m, lo, hi)))
          else
            match ParseInt(data)
            case None => Failure(BadInteger(data))
            case Some(lo) => Success(Some(Encoding.Instruction(m, lo, 0)))
  }

  /** A processed line whose first word is not one of the eight mnemonics produces nothing and raises nothing. */
  lemma UnknownLineSkipped(line: string)
    requires IsProcessed(line) && ' ' in line
    requires DraftMnemonic(SplitOnce(line, ' ')[0]).None?
    ensures ParseLine(line) == Success(None)
  {
  }

  /** `f` applied to every element in order, keeping the results it gives, or the first error. */
  function Collect<A, B, E>(f: A -> Result<Option<B>, E>, xs: seq<A>): Result<seq<B>, E>
    decreases |xs|
  {
    if xs == [] then
      Success([])
    else
      var n := |xs| - 1;
      match Collect(f, xs[..n])
      case Failure(e) => Failure(e)
      case Success(prior) =>
        match f(xs[n])
        case Failure(e) => Failure(e)
        case Success(None) => Success(prior)
        case Success(Some(y)) => Success(prior + [y])
  }

  /** `compile` over lines: the ops of the lines in order, or the first line's exception. */
  function CompileLines(lines: seq<string>): Result<seq<Encoding.Instruction>, DraftError> {
    Collect(ParseLine, lines)
  }

  /** `compile` on the text of a program. */
  function CompileProgram(program: string): Result<seq<Encoding.Instruction>, DraftError> {
    CompileLines(SplitLines(program))
  }

  /** Collecting over two runs one after the other collects each and concatenates. */
  lemma {:induction false} CollectAppend<A, B, E>(f: A -> Result<Option<B>, E>, xs: seq<A>, ys: seq<A>)
    ensures Collect(f, xs + ys) ==
      match Collect(f, xs)
      case Failure(e) => Failure(e)
      case Success(a) =>
        match Collect(f, ys)
        case Failure(e) => Failure(e)
        case Success(b) => Success(a + b)
    decreases |ys|
  {
    if ys == [] {
      assert xs + ys == xs;
      if Collect(f, xs).Success? {
        assert Collect(f, xs).value + [] == Collect(f, xs).value;
      }
    } else {
      var n := |ys| - 1;
      assert (xs + ys)[..|xs| + n] == xs + ys[..n];
      assert (xs + ys)[|xs| + n] == ys[n];
      CollectAppend(f, xs, ys[..n]);
      if Collect(f, xs).Success? && Collect(f, ys[..n]).Success? && f(ys[n]).Success? && f(ys[n]).value.Some? {
        var a := Collect(f, xs).value;
        var b := Collect(f, ys[..n]).value;
        assert (a + b) + [f(ys[n]).value.value] == a + (b + [f(ys[n]).value.value]);
      }
    }
  }

  /**
   * A skipped line (empty, a comment, or an unknown mnemonic) can be put
   * anywhere in a program without changing what it compiles to.
   */
  lemma SkippedLineIsInvisible(xs: seq<string>, line: string, ys: seq<string>)
    requires ParseLine(line) == Success(None)
    ensures CompileLines(xs + [line] + ys) == CompileLines(xs + ys)
  {
    CollectAppend(ParseLine, xs + [line], ys);
    CollectAppend(ParseLine, xs, ys);
    assert (xs + [line])[..|xs|] == xs;
  }

  /** Once an element fails, later elements do not matter. */
  lemma {:induction false} CollectStops<A, B, E>(f: A -> Result<Option<B>, E>, xs: seq<A>, k: nat)
    requires k <= |xs| && Collect(f, xs[..k]).Failure?
    ensures Collect(f, xs) == Collect(f, xs[..k])
    decreases |xs| - k
  {
    if k < |xs| {
      var prefix := xs[..|xs| - 1];
      assert prefix[..k] == xs[..k];
      CollectStops(f, prefix, k);
    } else {
      assert xs[..k] == xs;
    }
  }

  /** Elements that each give one result collect to those results, in order. */
  lemma {:induction false} CollectOfEach<A, B, E>(f: A -> Result<Option<B>, E>, xs: seq<A>, ys: seq<B>)
    requires |xs| == |ys|
    requires forall k :: 0 <= k < |xs| ==> f(xs[k]) == Success(Some(ys[k]))
    ensures Collect(f, xs) == Success(ys)
    decreases |xs|
  {
    if xs != [] {
      var n := |xs| - 1;
      CollectOfEach(f, xs[..n], ys[..n]);
      assert ys[..n] + [ys[n]] == ys;
    }
  }

  /** One more element: collect the prefix, then that element. */
  lemma CollectNext<A, B, E>(f: A -> Result<Option<B>, E>, xs: seq<A>, i: nat)
    requires i < |xs|
    ensures Collect(f, xs[..i + 1]) ==
      match Collect(f, xs[..i])
      case Failure(e) => Failure(e)
      case Success(prior) =>
        match f(xs[i])
        case Failure(e) => Failure(e)
        case Success(None) => Success(prior)
        case Success(Some(y)) => Success(prior + [y])
  {
    assert xs[..i + 1][..i] == xs[..i];
  }

  /** `compile`'s loop: each processed line with a known mnemonic appends one op. */
  method Compile(program: string) returns (r: Result<seq<Encoding.Instruction>, DraftError>)
    ensures r == CompileProgram(program)
  {
    var lines := SplitLines(program);
    var instructions: seq<Encoding.Instruction> := [];
    var i := 0;
    while i < |lines|
      invariant i <= |lines|
      invariant CompileLines(lines[..i]) == Success(instructions)
    {
      var next := ParseLine(lines[i]);
      CollectNext(ParseLine, lines, i);
      if next.Failure? {
        CollectStops(ParseLine, lines, i + 1);
        return Failure(next.error);
      }
      if next.value.Some? {
        instructions := instructions + [next.value.value];
      }
      i := i + 1;
    }
    assert lines[..i] == lines;
    r := Success(instructions);
  }

  // ---------------------------------------------------------------------
  // Listings of the draft's syntax

  /** An op in the draft's syntax: `LDA 5`, `ADD 3 4`. */
  function Render(ins: Encoding.Instruction): string {
    Name(ins.mnemonic) + " " + if ArityOf(ins.mnemonic) == Binary then Show(ins.lo) + " " + Show(ins.hi) else Show(ins.lo)
  }

  /** Each op on its own line. */
  function Listing(program: seq<Encoding.Instruction>): string {
    Terminated(seq(|program|, i requires 0 <= i < |program| => Render(program[i])))
  }

  /** The decimal form of an integer has no whitespace and no line break. */
  lemma ShowIsWord(n: int)
    ensures Show(n) != [] && NoSpace(Show(n)) && NoLineBreak(Show(n))
  {
    var a := if n < 0 then -n else n;
    assert forall k :: 0 <= k < |ShowNat(a)| ==> IsDigit(ShowNat(a)[k]);
  }

  /** The operand text of a rendered op parses back to its operands. */
  lemma ParseOperands(ins: Encoding.Instruction)
    requires Wellformed(ins)
    ensures var data := if ArityOf(ins.mnemonic) == Binary then Show(ins.lo) + " " + Show(ins.hi) else Show(ins.lo);
      NoLineBreak(data)
      && (ArityOf(ins.mnemonic) == Binary ==> Words(data) == [Show(ins.lo), Show(ins.hi)])
      && (ArityOf(ins.mnemonic) != Binary ==> ParseInt(data) == Some(ins.lo))
  {
    var lo := Show(ins.lo);
    var hi := Show(ins.hi);
    ShowIsWord(ins.lo);
    ParseIntOfShow(ins.lo);
    if ArityOf(ins.mnemonic) == Binary {
      ShowIsWord(ins.hi);
      NoLineBreakAppend(lo, " ");
      NoLineBreakAppend(lo + " ", hi);
      assert Join([lo, hi], ' ') == lo + " " + hi by {
        assert [lo, hi][1..] == [hi];
      }
      WordsOfJoin([lo, hi]);
    }
  }

  /** A one-operand line: all the text after the first space goes to `int()`, which may raise. */
  lemma ParseUnaryLine(m: Mnemonic, data: string)
    requires InDraft(m) && ArityOf(m) != Binary
    ensures ParseLine(Name(m) + " " + data) ==
      match ParseInt(data)
      case None => Failure(BadInteger(data))
      case Some(lo) => Success(Some(Encoding.Instruction(m, lo, 0)))
  {
    SplitAtMnemonic(m, data);
    DraftMnemonicOfName(m);
    NameIsUpper(m);
  }

  /**
   * A two-operand line: the text after the first space splits on whitespace,
   * not on commas, into exactly two words, each parsed by `int()`; the first
   * failure raises.
   */
  lemma ParseBinaryLine(m: Mnemonic, data: string)
    requires InDraft(m) && ArityOf(m) == Binary
    ensures var ws := Words(data);
      ParseLine(Name(m) + " " + data) ==
        if |ws| != 2 then Failure(OperandCount(data))
        else
          match ParseInt(ws[0])
          case None => Failure(BadInteger(ws[0]))
          case Some(lo) =>
            match ParseInt(ws[1])
            case None => Failure(BadInteger(ws[1]))
            case Some(hi) => Success(Some(Encoding.Instruction(m, lo, hi)))
  {
    SplitAtMnemonic(m, data);
    DraftMnemonicOfName(m);
    NameIsUpper(m);
  }

  /** A decimal form followed by a comma is not an int. */
  lemma ParseIntOfComma(n: int)
    ensures ParseInt(Show(n) + ",") == None
  {
    var t := Show(n) + ",";
    ShowIsWord(n);
    assert t[0] == Show(n)[0] && t[|t| - 1] == ',';
    assert !IsSpace(t[0]) by {
      assert !IsSpace(Show(n)[0]);
    }
    StripFixed(t);
  }

  /** The comma syntax of lrc/lrc.py does not carry over: `ADD 3, 4` raises at `int("3,")`. */
  lemma CommaPairFails(m: Mnemonic, lo: int, hi: int)
    requires InDraft(m) && ArityOf(m) == Binary
    ensures ParseLine(Name(m) + " " + (Show(lo) + ", " + Show(hi))) == Failure(BadInteger(Show(lo) + ","))
  {
    var first := Show(lo) + ",";
    var second := Show(hi);
    ShowIsWord(lo);
    ShowIsWord(hi);
    assert NoSpace(first) by {
      assert forall k :: 0 <= k < |Show(lo)| ==> first[k] == Show(lo)[k];
    }
    assert Join([first, second], ' ') == Show(lo) + ", " + Show(hi) by {
      assert [first, second][1..] == [second];
    }
    WordsOfJoin([first, second]);
    ParseIntOfComma(lo);
    ParseBinaryLine(m, Show(lo) + ", " + Show(hi));
  }

  /** A mnemonic, a space and any text split at that space. */
  lemma SplitAtMnemonic(m: Mnemonic, data: string)
    ensures SplitOnce(Name(m) + " " + data, ' ') == [Name(m), data]
  {
    var line := Name(m) + " " + data;
    NameIsUpper(m);
    assert forall k :: 0 <= k < 3 ==> line[k] == Name(m)[k];
    assert line[3] == ' ';
    IndexOfFirst(line, ' ', 3);
    assert line[..3] == Name(m) && line[4..] == data;
  }

  /** A rendered op is one processed line. */
  lemma RenderedLine(ins: Encoding.Instruction)
    requires Wellformed(ins)
    ensures IsProcessed(Render(ins)) && NoLineBreak(Render(ins))
  {
    var m := ins.mnemonic;
    var data := if ArityOf(m) == Binary then Show(ins.lo) + " " + Show(ins.hi) else Show(ins.lo);
    var line := Render(ins);
    assert line == Name(m) + " " + data;
    ParseOperands(ins);
    NameIsUpper(m);
    assert line[0] == Name(m)[0];
    assert NoLineBreak(Name(m));
    NoLineBreakAppend(Name(m), " ");
    NoLineBreakAppend(Name(m) + " ", data);
  }

  /** A rendered op is processed, splits at its mnemonic and parses back to the op. */
  lemma ParseLineOfRender(ins: Encoding.Instruction)
    requires Wellformed(ins)
    ensures IsProcessed(Render(ins)) && NoLineBreak(Render(ins))
    ensures ParseLine(Render(ins)) == Success(Some(ins))
  {
    RenderedLine(ins);
    if ArityOf(ins.mnemonic) == Binary {
      ParseBinaryOfRender(ins);
    } else {
      ParseUnaryOfRender(ins);
    }
  }

  lemma ParseBinaryOfRender(ins: Encoding.Instruction)
    requires Wellformed(ins) && ArityOf(ins.mnemonic) == Binary
    ensures ParseLine(Render(ins)) == Success(Some(ins))
  {
    var m := ins.mnemonic;
    var lo, hi := Show(ins.lo), Show(ins.hi);
    var data := lo + " " + hi;
    var line := Render(ins);
    assert line == Name(m) + " " + data;
    RenderedLine(ins);
    SplitAtMnemonic(m, data);
    ParseOperands(ins);
    ParseIntOfShow(ins.lo);
    ParseIntOfShow(ins.hi);
    DraftMnemonicOfName(m);
    var parts := SplitOnce(line, ' ');
    assert parts[0] == Name(m) && parts[1] == data;
    var ws := Words(data);
    assert ws[0] == lo && ws[1] == hi && |ws| == 2;
  }

  lemma ParseUnaryOfRender(ins: Encoding.Instruction)
    requires Wellformed(ins) && ArityOf(ins.mnemonic) != Binary
    ensures ParseLine(Render(ins)) == Success(Some(ins))
  {
    var m := ins.mnemonic;
    var data := Show(ins.lo);
    var line := Render(ins);
    assert line == Name(m) + " " + data;
    RenderedLine(ins);
    SplitAtMnemonic(m, data);
    ParseIntOfShow(ins.lo);
    DraftMnemonicOfName(m);
    var parts := SplitOnce(line, ' ');
    assert parts[0] == Name(m) && parts[1] == data;
  }

  /** Compiling the listing of well-formed ops gives back those ops, whatever their operand values. */
  lemma CompileOfListing(program: seq<Encoding.Instruction>)
    requires forall k :: 0 <= k < |program| ==> Wellformed(program[k])
    ensures CompileProgram(Listing(program)) == Success(program)
  {
    var lines := seq(|program|, i requires 0 <= i < |program| => Render(program[i]));
    forall k | 0 <= k < |lines|
      ensures NoLineBreak(lines[k]) && ParseLine(lines[k]) == Success(Some(program[k]))
    {
      ParseLineOfRender(program[k]);
    }
    SplitLinesOfTerminated(lines);
    CollectOfEach(ParseLine, lines, program);
  }
}
