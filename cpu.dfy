/**
 * The reference interpreter as it runs: the handlers, the tick and the run
 * loop of lrc/lrc.py change a `Memory` object in place. Each method is proved
 * to leave the object in exactly the state the matching function of
 * `Machine` computes, so every property proved there holds of these methods.
 */
module Cpu {
  import opened Wrappers
  import opened Isa
  import opened Memory
  import opened Encoding
  import Machine

  /** The snapshot of a memory object that the functions of `Machine` work on. */
  function State(mem: Memory): Machine.Config
    reads mem
  {
    Machine.Config(mem.ram, mem.ptr)
  }

  /** A handler's `memory.write`: an out-of-range value raises and stores nothing. */
  method Store(mem: Memory, index: nat, value: int) returns (signal: Machine.Signal)
    modifies mem
    ensures Machine.WriteEffect(old(State(mem)), index, value) == Machine.Effect(signal, State(mem))
  {
    var ok := mem.Write(index, value);
    signal := if ok then Machine.Proceed else Machine.Raise(Machine.ValueOutOfRange(index, value));
  }

  /** A handler's `memory.ptr = lo - 1`. */
  method Jump(mem: Memory, target: nat) returns (signal: Machine.Signal)
    modifies mem
    ensures Machine.JumpEffect(old(State(mem)), target) == Machine.Effect(signal, State(mem))
  {
    mem.ptr := target - 1;
    signal := Machine.Proceed;
  }

  /** `self.opcodes[opcode](memory, lo, hi)`: run the handler of `m`. */
  method Execute(mem: Memory, m: Mnemonic, lo: nat, hi: nat) returns (signal: Machine.Signal)
    modifies mem
    ensures Machine.Exec(m, lo, hi, old(State(mem))) == Machine.Effect(signal, State(mem))
  {
    match m
    case NUL =>
      signal := Machine.Proceed;
    case STA =>
      var v := mem.ReadAccumulator();
      signal := Store(mem, lo, v);
    case LDA =>
      var ok := mem.WriteAccumulator(lo);
      signal := if ok then Machine.Proceed else Machine.Raise(Machine.ValueOutOfRange(ADDR_REG, lo));
    case INC =>
      var v: int := mem.Read(lo);
      signal := Store(mem, lo, v + 1);
    case DEC =>
      var v: int := mem.Read(lo);
      signal := Store(mem, lo, v - 1);
    case ADD =>
      var a := mem.Read(lo);
      var b := mem.Read(hi);
      signal := Store(mem, lo, (a + b) % Machine.ARITH_LIMIT);
    case SUB =>
      var a: int := mem.Read(lo);
      signal := Store(mem, lo, (a - hi) % Machine.ARITH_LIMIT);
    case JMP =>
      signal := Jump(mem, lo);
    case MOV =>
      var v := mem.Read(hi);
      signal := Store(mem, lo, v);
    case CMP =>
      var a := mem.Read(lo);
      var b := mem.Read(hi);
      var ok := mem.SetFlagCmp(if a < b then 1 else 0);
      signal := if ok then Machine.Proceed else Machine.Raise(Machine.ValueOutOfRange(ADDR_FLG, if a < b then 1 else 0));
    case BRA =>
      var flag := mem.FlagCmp();
      if flag == 0 {
        signal := Jump(mem, lo);
      } else {
        signal := Machine.Proceed;
      }
    case BRB =>
      var flag := mem.FlagCmp();
      if flag == 1 {
        signal := Jump(mem, lo);
      } else {
        signal := Machine.Proceed;
      }
    case HLT =>
      signal := Machine.Terminate;
  }

  /** One `tick`: fetch, decode, dispatch, then increment `ptr` and check it against `len(memory)`. */
  method Tick(mem: Memory) returns (status: Machine.Status)
    modifies mem
    ensures Machine.Step(old(State(mem))) == Machine.Outcome(status, State(mem))
  {
    if mem.ptr < 0 {
      return Machine.Faulted(Machine.NegativeAddress(mem.ptr));
    }
    var word := mem.Read(mem.ptr);
    var (opcode, lo, hi) := Interpret(word);
    var entry := FromOpcode(opcode);
    if entry.None? {
      return Machine.Faulted(Machine.UnknownOpcode(opcode));
    }
    var signal := Execute(mem, entry.value, lo, hi);
    match signal
    case Terminate =>
      status := Machine.Halted;
    case Raise(f) =>
      status := Machine.Faulted(f);
    case Proceed =>
      mem.ptr := mem.ptr + 1;
      var n := mem.Length();
      status := if mem.ptr > n then Machine.Faulted(Machine.SegmentationFault) else Machine.Running;
  }

  /**
   * `Interpreter.run`: tick until a tick stops, for at most `fuel` ticks.
   * The result and the final memory are those of `Machine.Run`.
   */
  method Run(mem: Memory, fuel: nat) returns (status: Machine.Status)
    modifies mem
    ensures Machine.Run(old(State(mem)), fuel) == Machine.Outcome(status, State(mem))
  {
    ghost var start := State(mem);
    status := Machine.Running;
    var k: nat := 0;
    while k < fuel && status == Machine.Running
      invariant k <= fuel
      invariant Machine.Run(start, k) == Machine.Outcome(status, State(mem))
      decreases fuel - k
    {
      Machine.RunExtends(start, k);
      status := Tick(mem);
      k := k + 1;
    }
    if k < fuel {
      Machine.StoppedRunIsStable(start, k, fuel - k);
    }
  }

  // ---------------------------------------------------------------------
  // Loading a program (`main`): instruction `i` is written to ADDR_PRG + i

  /** The words of a compiled program, in order. */
  function Values(program: seq<Instruction>): (vs: seq<int>)
    ensures |vs| == |program|
  {
    seq(|program|, i requires 0 <= i < |program| => Value(program[i]))
  }

  /**
   * Writing `values` one after another from `base`: the final store and, if a
   * write's range check failed, the position of that value (the loader stops
   * there, with the earlier values already written).
   */
  function LoadAll(ram: Ram, base: nat, values: seq<int>): (Ram, Option<nat>)
    decreases |values|
  {
    if values == [] then
      (ram, None)
    else
      var (r, failed) := LoadAll(ram, base, values[..|values| - 1]);
      if failed.Some? then
        (r, failed)
      else
        match Put(r, base + |values| - 1, values[|values| - 1])
        case None => (r, Some(|values| - 1))
        case Some(r') => (r', None)
  }

  /** Loading fails exactly when some value is not a word, and then at one that is not. */
  lemma {:induction false} LoadAllFails(ram: Ram, base: nat, values: seq<int>)
    ensures LoadAll(ram, base, values).1.None? <==> forall i :: 0 <= i < |values| ==> IsWord(values[i])
    ensures var failed := LoadAll(ram, base, values).1;
      failed.Some? ==>
        (failed.value < |values| && !IsWord(values[failed.value])
         && forall i :: 0 <= i < failed.value ==> IsWord(values[i]))
    decreases |values|
  {
    if values != [] {
      var prefix := values[..|values| - 1];
      LoadAllFails(ram, base, prefix);
      assert forall i :: 0 <= i < |prefix| ==> prefix[i] == values[i];
    }
  }

  /**
   * A load writes only the cells from `base` to `base + |values|`, and a
   * load that succeeds leaves value `i` at `base + i`.
   */
  lemma {:induction false} LoadAllContents(ram: Ram, base: nat, values: seq<int>)
    ensures LoadAll(ram, base, values).1.None? ==>
      forall i :: 0 <= i < |values| ==> Get(LoadAll(ram, base, values).0, base + i) == values[i]
    ensures forall j: nat :: j < base || base + |values| <= j ==>
      Get(LoadAll(ram, base, values).0, j) == Get(ram, j)
    decreases |values|
  {
    if values != [] {
      var n := |values| - 1;
      var prefix := values[..n];
      LoadAllContents(ram, base, prefix);
      var (r, failed) := LoadAll(ram, base, prefix);
      assert forall i :: 0 <= i < n ==> prefix[i] == values[i];
      if failed.None? && IsWord(values[n]) {
        PutFrame(r, base + n, values[n]);
      }
    }
  }

  /** Once a write fails, the loader writes nothing more: later values do not change the result. */
  lemma {:induction false} LoadAllStops(ram: Ram, base: nat, values: seq<int>, k: nat)
    requires k <= |values| && LoadAll(ram, base, values[..k]).1.Some?
    ensures LoadAll(ram, base, values) == LoadAll(ram, base, values[..k])
    decreases |values| - k
  {
    if k < |values| {
      var prefix := values[..|values| - 1];
      assert prefix[..k] == values[..k];
      LoadAllStops(ram, base, prefix, k);
    } else {
      assert values[..k] == values;
    }
  }

  /** `main`'s loading loop: write each instruction's value at ADDR_PRG + index. */
  method LoadProgram(mem: Memory, program: seq<Instruction>) returns (failed: Option<nat>)
    modifies mem
    ensures mem.ptr == old(mem.ptr)
    ensures LoadAll(old(mem.ram), ADDR_PRG, Values(program)) == (mem.ram, failed)
  {
    ghost var values := Values(program);
    ghost var initial := mem.ram;
    var i := 0;
    while i < |program|
      invariant i <= |program| && mem.ptr == old(mem.ptr)
      invariant LoadAll(initial, ADDR_PRG, values[..i]) == (mem.ram, None)
    {
      assert values[..i + 1][..i] == values[..i];
      var ok := mem.Write(ADDR_PRG + i, Value(program[i]));
      if !ok {
        assert LoadAll(initial, ADDR_PRG, values[..i + 1]) == (mem.ram, Some(i));
        LoadAllStops(initial, ADDR_PRG, values, i + 1);
        return Some(i);
      }
      i := i + 1;
    }
    assert values[..i] == values;
    failed := None;
  }

  /**
   * A loaded program decodes back: when every instruction came from a
   * constructor and loading succeeded, the word fetched at ADDR_PRG + i
   * names instruction i's operation and carries its `lo` and `hi`.
   */
  lemma LoadedProgramDecodes(ram: Ram, program: seq<Instruction>, data: seq<Data>, i: nat)
    requires |data| == |program| && i < |program|
    requires forall k :: 0 <= k < |program| ==> Construct(program[k].mnemonic, data[k]) == Some(program[k])
    requires LoadAll(ram, ADDR_PRG, Values(program)).1.None?
    ensures var w := Get(LoadAll(ram, ADDR_PRG, Values(program)).0, ADDR_PRG + i);
      Interpret(w) == (Opcode(program[i].mnemonic), program[i].lo, program[i].hi)
      && FromOpcode(Interpret(w).0) == Some(program[i].mnemonic)
  {
    LoadAllContents(ram, ADDR_PRG, Values(program));
    assert Values(program)[i] == Value(program[i]);
    RoundTrip(program[i].mnemonic, data[i], program[i]);
  }
}
