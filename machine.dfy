/**
 * The fetch-decode-execute semantics of the reference interpreter
 * (lrc/lrc.py), as functions over a snapshot of the memory: its cells and the
 * program counter `ptr`. The imperative counterparts in `Cpu` are proved to
 * compute exactly these functions.
 */
module Machine {
  import opened Wrappers
  import opened Isa
  import opened Memory
  import opened Encoding

  const ARITH_LIMIT: int := 0x1_0000  // ADD and SUB reduce modulo 2^16

  /** The state a tick reads and writes: the memory's cells and `ptr`. */
  datatype Config = Config(ram: Ram, ptr: int)

  /** Why a run stopped abnormally: each is an exception the tick catches and shuts down on. */
  datatype Fault =
    | SegmentationFault            // `ptr` ran past `len(memory)`
    | UnknownOpcode(opcode: int)   // no table entry for the decoded opcode
    | ValueOutOfRange(index: nat, value: int)  // a write's range assertion failed
    | NegativeAddress(address: int)  // a read's index assertion failed

  /** How a handler ended: normally, by raising Terminate (HLT), or by raising a fault. */
  datatype Signal = Proceed | Terminate | Raise(fault: Fault)

  datatype Effect = Effect(signal: Signal, config: Config)

  /** What tick does next: schedule another tick, or shut down cleanly or after a fault. */
  datatype Status = Running | Halted | Faulted(fault: Fault)

  datatype Outcome = Outcome(status: Status, config: Config)

  /** `memory.write` inside a handler: a failed range check raises and leaves memory as it was. */
  function WriteEffect(c: Config, index: nat, value: int): Effect {
    match Put(c.ram, index, value)
    case Some(ram) => Effect(Proceed, c.(ram := ram))
    case None => Effect(Raise(ValueOutOfRange(index, value)), c)
  }

  /** Jumps set `ptr` one short of the target; the tick's increment lands on it. */
  function JumpEffect(c: Config, target: nat): Effect {
    Effect(Proceed, c.(ptr := target - 1))
  }

  /** The handler table `_load` ... `_halt`. */
  function Exec(m: Mnemonic, lo: nat, hi: nat, c: Config): Effect {
    match m
    case NUL => Effect(Proceed, c)
    case STA => WriteEffect(c, lo, Get(c.ram, ADDR_REG))
    case LDA => WriteEffect(c, ADDR_REG, lo)
    case INC => WriteEffect(c, lo, Get(c.ram, lo) + 1)
    case DEC => WriteEffect(c, lo, Get(c.ram, lo) - 1)
    case ADD => WriteEffect(c, lo, (Get(c.ram, lo) + Get(c.ram, hi)) % ARITH_LIMIT)
    case SUB => WriteEffect(c, lo, (Get(c.ram, lo) - hi) % ARITH_LIMIT)
    case JMP => JumpEffect(c, lo)
    case MOV => WriteEffect(c, lo, Get(c.ram, hi))
    case CMP => WriteEffect(c, ADDR_FLG, if Get(c.ram, lo) < Get(c.ram, hi) then 1 else 0)
    case BRA => if Get(c.ram, ADDR_FLG) == 0 then JumpEffect(c, lo) else Effect(Proceed, c)
    case BRB => if Get(c.ram, ADDR_FLG) == 1 then JumpEffect(c, lo) else Effect(Proceed, c)
    case HLT => Effect(Terminate, c)
  }

  /** The rest of a tick after the handler: increment `ptr`, then the bounds check. */
  ghost function Advance(e: Effect): Outcome {
    match e.signal
    case Terminate => Outcome(Halted, e.config)
    case Raise(f) => Outcome(Faulted(f), e.config)
    case Proceed =>
      var c := e.config.(ptr := e.config.ptr + 1);
      if c.ptr > Len(c.ram) then Outcome(Faulted(SegmentationFault), c) else Outcome(Running, c)
  }

  /** One tick: fetch the word at `ptr`, decode it, look the opcode up and run its handler. */
  ghost function Step(c: Config): Outcome {
    if c.ptr < 0 then
      Outcome(Faulted(NegativeAddress(c.ptr)), c)
    else
      var (opcode, lo, hi) := Interpret(Get(c.ram, c.ptr));
      match FromOpcode(opcode)
      case None => Outcome(Faulted(UnknownOpcode(opcode)), c)
      case Some(m) => Advance(Exec(m, lo, hi, c))
  }

  /**
   * The run loop: repeat `step` until it stops or `fuel` ticks are spent;
   * Running means the fuel ran out first. Every draft's run is this loop
   * over its own step.
   */
  function Iterate(step: Config -> Outcome, c: Config, fuel: nat): Outcome
    decreases fuel
  {
    if fuel == 0 then
      Outcome(Running, c)
    else
      var o := step(c);
      if o.status == Running then Iterate(step, o.config, fuel - 1) else o
  }

  /** At most `fuel` ticks of the reference interpreter. */
  ghost function Run(c: Config, fuel: nat): Outcome {
    Iterate(Step, c, fuel)
  }

  // ---------------------------------------------------------------------
  // Handler effects

  /** `c'` differs from `c` only in cell `index`, which now holds `value`. */
  ghost predicate WroteOnly(c: Config, c': Config, index: nat, value: int) {
    c'.ptr == c.ptr
    && Get(c'.ram, index) == value
    && forall j :: j != index ==> Get(c'.ram, j) == Get(c.ram, j)
  }

  /** LDA puts the literal `lo`, not the cell at `lo`, into the accumulator and changes nothing else. */
  lemma LoadEffect(lo: nat, hi: nat, c: Config)
    requires lo < MASK16
    ensures Exec(LDA, lo, hi, c).signal == Proceed
    ensures WroteOnly(c, Exec(LDA, lo, hi, c).config, ADDR_REG, lo)
  {
  }

  /** STA copies the accumulator to cell `lo`; MOV copies cell `hi` to cell `lo`. Nothing else changes. */
  lemma StoreMoveEffect(lo: nat, hi: nat, c: Config)
    ensures Exec(STA, lo, hi, c).signal == Proceed
    ensures WroteOnly(c, Exec(STA, lo, hi, c).config, lo, Get(c.ram, ADDR_REG))
    ensures Exec(MOV, lo, hi, c).signal == Proceed
    ensures WroteOnly(c, Exec(MOV, lo, hi, c).config, lo, Get(c.ram, hi))
  {
  }

  /**
   * INC and DEC move cell `lo` by one and change nothing else; INC of the
   * largest word and DEC of 0 fail the write check and leave the state alone.
   */
  lemma IncDecEffect(lo: nat, hi: nat, c: Config)
    ensures var e := Exec(INC, lo, hi, c);
      if Get(c.ram, lo) < WORD_LIMIT - 1 then
        e.signal == Proceed && WroteOnly(c, e.config, lo, Get(c.ram, lo) + 1)
      else
        e == Effect(Raise(ValueOutOfRange(lo, WORD_LIMIT)), c)
    ensures var e := Exec(DEC, lo, hi, c);
      if Get(c.ram, lo) > 0 then
        e.signal == Proceed && WroteOnly(c, e.config, lo, Get(c.ram, lo) - 1)
      else
        e == Effect(Raise(ValueOutOfRange(lo, -1)), c)
  {
  }

  /**
   * ADD adds cell `hi` to cell `lo` and SUB subtracts the literal `hi` from
   * cell `lo`, both modulo 2^16; neither can fail the write check.
   */
  lemma AddSubEffect(lo: nat, hi: nat, c: Config)
    ensures var e := Exec(ADD, lo, hi, c);
      e.signal == Proceed && WroteOnly(c, e.config, lo, (Get(c.ram, lo) + Get(c.ram, hi)) % ARITH_LIMIT)
    ensures var e := Exec(SUB, lo, hi, c);
      e.signal == Proceed && WroteOnly(c, e.config, lo, (Get(c.ram, lo) - hi) % ARITH_LIMIT)
    ensures 0 <= Get(Exec(ADD, lo, hi, c).config.ram, lo) < ARITH_LIMIT
    ensures 0 <= Get(Exec(SUB, lo, hi, c).config.ram, lo) < ARITH_LIMIT
  {
  }

  /** CMP sets the flag to 1 exactly when cell `lo` is below cell `hi`, to 0 otherwise. */
  lemma CompareEffect(lo: nat, hi: nat, c: Config)
    ensures var e := Exec(CMP, lo, hi, c);
      e.signal == Proceed
      && WroteOnly(c, e.config, ADDR_FLG, if Get(c.ram, lo) < Get(c.ram, hi) then 1 else 0)
      && (Get(e.config.ram, ADDR_FLG) == 1 <==> Get(c.ram, lo) < Get(c.ram, hi))
  {
  }

  /**
   * JMP always, BRA when the flag is 0 and BRB when it is 1 set `ptr` to
   * `lo - 1`; otherwise `ptr` stays. No jump touches memory.
   */
  lemma BranchEffect(lo: nat, hi: nat, c: Config)
    ensures Exec(JMP, lo, hi, c) == Effect(Proceed, c.(ptr := lo - 1))
    ensures Exec(BRA, lo, hi, c).signal == Proceed && Exec(BRA, lo, hi, c).config.ram == c.ram
    ensures Exec(BRA, lo, hi, c).config.ptr == if Get(c.ram, ADDR_FLG) == 0 then lo - 1 else c.ptr
    ensures Exec(BRB, lo, hi, c).signal == Proceed && Exec(BRB, lo, hi, c).config.ram == c.ram
    ensures Exec(BRB, lo, hi, c).config.ptr == if Get(c.ram, ADDR_FLG) == 1 then lo - 1 else c.ptr
  {
  }

  /** INC followed by DEC of the same cell leaves every cell reading as before. */
  lemma IncThenDec(lo: nat, c: Config)
    requires Exec(INC, lo, 0, c).signal == Proceed
    ensures var c1 := Exec(INC, lo, 0, c).config;
      var e := Exec(DEC, lo, 0, c1);
      e.signal == Proceed && e.config.ptr == c.ptr && forall j :: Get(e.config.ram, j) == Get(c.ram, j)
  {
    var c1 := Exec(INC, lo, 0, c).config;
    IncDecEffect(lo, 0, c);
    IncDecEffect(lo, 0, c1);
  }

  /** After `CMP lo,hi`, BRB jumps exactly when cell `lo` was below cell `hi`, and BRA exactly when it was not. */
  lemma CompareThenBranch(lo: nat, hi: nat, target: nat, c: Config)
    ensures var c1 := Exec(CMP, lo, hi, c).config;
      (Exec(BRB, target, 0, c1).config.ptr == target - 1 <== Get(c.ram, lo) < Get(c.ram, hi))
      && (Exec(BRB, target, 0, c1).config.ptr == c.ptr <== Get(c.ram, lo) >= Get(c.ram, hi))
      && (Exec(BRA, target, 0, c1).config.ptr == target - 1 <== Get(c.ram, lo) >= Get(c.ram, hi))
      && (Exec(BRA, target, 0, c1).config.ptr == c.ptr <== Get(c.ram, lo) < Get(c.ram, hi))
  {
    CompareEffect(lo, hi, c);
  }

  // ---------------------------------------------------------------------
  // Step rules

  /** The mnemonic `Step` executes at `c`, when the fetched opcode has a table entry. */
  function Fetched(c: Config): Option<Mnemonic>
    requires c.ptr >= 0
  {
    FromOpcode(Interpret(Get(c.ram, c.ptr)).0)
  }

  /**
   * A step whose handler completes moves `ptr` to the handler's value plus
   * one; it is a SegmentationFault exactly when that passes `len(memory)`.
   * An op that does not jump therefore leaves `ptr` one larger.
   */
  lemma StepAdvances(c: Config)
    requires c.ptr >= 0 && Fetched(c).Some?
    requires Exec(Fetched(c).value, Interpret(Get(c.ram, c.ptr)).1, Interpret(Get(c.ram, c.ptr)).2, c).signal == Proceed
    ensures var e := Exec(Fetched(c).value, Interpret(Get(c.ram, c.ptr)).1, Interpret(Get(c.ram, c.ptr)).2, c);
      Step(c).config == e.config.(ptr := e.config.ptr + 1)
      && (Step(c).status == Faulted(SegmentationFault) <==> e.config.ptr + 1 > Len(e.config.ram))
      && (Step(c).status == Running <==> e.config.ptr + 1 <= Len(e.config.ram))
    ensures Fetched(c).value !in {JMP, BRA, BRB} ==> Step(c).config.ptr == c.ptr + 1
  {
  }

  /** HLT stops cleanly: no increment of `ptr`, no change to memory and no fault. */
  lemma HaltStops(c: Config)
    requires c.ptr >= 0 && Fetched(c) == Some(HLT)
    ensures Step(c) == Outcome(Halted, c)
  {
  }

  /** Opcodes 13, 14 and 15 have no table entry: the step faults and changes nothing. */
  lemma UnknownOpcodeFaults(c: Config)
    requires c.ptr >= 0 && Interpret(Get(c.ram, c.ptr)).0 >= 13
    ensures Step(c) == Outcome(Faulted(UnknownOpcode(Interpret(Get(c.ram, c.ptr)).0)), c)
  {
    InterpretWord(Get(c.ram, c.ptr));
  }

  /** Fetching at or past the end reads 0, a NUL, whose increment runs off memory. */
  lemma RunOffTheEnd(c: Config)
    requires 0 <= c.ptr && Len(c.ram) <= c.ptr
    ensures Step(c) == Outcome(Faulted(SegmentationFault), c.(ptr := c.ptr + 1))
  {
    KeysBelowLen(c.ram);
    assert c.ptr !in c.ram;
  }

  /** In-bounds `ptr` is an invariant: a step that keeps running leaves `0 <= ptr <= len(memory)`. */
  lemma StepKeepsPtrInBounds(c: Config)
    requires c.ptr >= 0
    ensures Step(c).status == Running ==> 0 <= Step(c).config.ptr <= Len(Step(c).config.ram)
  {
    var (opcode, lo, hi) := Interpret(Get(c.ram, c.ptr));
    InterpretWord(Get(c.ram, c.ptr));
  }

  // ---------------------------------------------------------------------
  // Runs

  /** A Terminate or a fault ends the run: no later step happens whatever fuel remains. */
  lemma StopIsFinal(c: Config, fuel: nat)
    requires fuel > 0 && Step(c).status != Running
    ensures Run(c, fuel) == Step(c)
  {
  }

  /** One more tick: a run of `k + 1` ticks is a run of `k` followed, if it is still running, by one step. */
  lemma RunExtends(c: Config, k: nat)
    ensures var o := Run(c, k);
      Run(c, k + 1) == if o.status == Running then Step(o.config) else o
  {
    IterateSplits(Step, c, k, 1);
  }

  /** Running `a + b` ticks is running `a` ticks and then, if still running, `b` more. */
  lemma {:induction false} IterateSplits(step: Config -> Outcome, c: Config, a: nat, b: nat)
    ensures var o := Iterate(step, c, a);
      Iterate(step, c, a + b) == if o.status == Running then Iterate(step, o.config, b) else o
    decreases a
  {
    if a > 0 {
      var o := step(c);
      if o.status == Running {
        IterateSplits(step, o.config, a - 1, b);
        assert a + b - 1 == (a - 1) + b;
      }
    }
  }

  /** A property every running step preserves holds of the configuration a run ends in. */
  lemma {:induction false} IterateKeeps(step: Config -> Outcome, inv: Config -> bool, c: Config, fuel: nat)
    requires inv(c)
    requires forall d :: inv(d) && step(d).status == Running ==> inv(step(d).config)
    ensures Iterate(step, c, fuel).status == Running ==> inv(Iterate(step, c, fuel).config)
    decreases fuel
  {
    if fuel > 0 && step(c).status == Running {
      IterateKeeps(step, inv, step(c).config, fuel - 1);
    }
  }

  /** A run that stopped with fuel to spare has stopped for good: more fuel changes nothing. */
  lemma StoppedRunIsStable(c: Config, fuel: nat, extra: nat)
    requires Run(c, fuel).status != Running
    ensures Run(c, fuel + extra) == Run(c, fuel)
  {
    IterateSplits(Step, c, fuel, extra);
  }

  /** From an in-bounds `ptr`, every configuration a run is still running in has an in-bounds `ptr`. */
  lemma RunKeepsPtrInBounds(c: Config, fuel: nat)
    requires 0 <= c.ptr <= Len(c.ram)
    ensures var o := Run(c, fuel);
      o.status == Running ==> 0 <= o.config.ptr <= Len(o.config.ram)
  {
    var inBounds := (d: Config) => 0 <= d.ptr <= Len(d.ram);
    forall d | inBounds(d) && Step(d).status == Running
      ensures inBounds(Step(d).config)
    {
      StepKeepsPtrInBounds(d);
    }
    IterateKeeps(Step, inBounds, c, fuel);
  }
}
