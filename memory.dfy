/**
 * Sparse word memory. Every draft of the machine carries the same `Memory`
 * class: a dictionary from non-negative index to 32-bit word, where an index
 * that was never written reads as 0, together with the program counter `ptr`.
 * The length is derived from the highest written index rather than stored.
 */
module Memory {
  import opened Wrappers

  const WORD_LIMIT: int := 0x1_0000_0000  // 2^32

  // Reserved addresses of the address space.
  const ADDR_IO: nat := 0    // output port drained by the terminal device
  const ADDR_REG: nat := 17  // the accumulator
  const ADDR_FLG: nat := 25  // the compare flag
  const ADDR_PRG: nat := 33  // where programs are loaded and `ptr` starts

  type Word = x: int | 0 <= x < 0x1_0000_0000

  /** The backing dictionary: only written cells are present. */
  type Ram = map<nat, Word>

  predicate IsWord(v: int) {
    0 <= v < WORD_LIMIT
  }

  /** `read`: the word at `index`; a cell that was never written holds 0. */
  function Get(ram: Ram, index: nat): Word {
    if index in ram then ram[index] else 0
  }

  /**
   * `write`: the updated store, or None when `value` is not a word (the
   * source's range assertion fails and nothing is stored). `PutFrame` states
   * what a successful write leaves unchanged.
   */
  function Put(ram: Ram, index: nat, value: int): (r: Option<Ram>)
    ensures r.Some? <==> IsWord(value)
    ensures r.Some? ==> Get(r.value, index) == value
  {
    if IsWord(value) then Some(ram[index := value]) else None
  }

  /** A successful write changes only cell `index` and raises the length to cover it. */
  lemma PutFrame(ram: Ram, index: nat, value: int)
    requires IsWord(value)
    ensures forall j :: j != index ==> Get(Put(ram, index, value).value, j) == Get(ram, j)
    ensures Len(Put(ram, index, value).value) == if index < Len(ram) then Len(ram) else index + 1
  {
    LenOfUpdate(ram, index, value);
  }

  /** `len(memory)`: the highest written index plus one, or 0 when nothing was written. */
  ghost function Len(ram: Ram): (n: nat)
    ensures n == 0 <==> ram == map[]
    ensures n > 0 ==> n - 1 in ram
  {
    if ram == map[] then 0 else MaxKey(ram.Keys) + 1
  }

  /** Some element of a non-empty set of indices. */
  ghost function Pick(keys: set<nat>): (x: nat)
    requires keys != {}
    ensures x in keys
  {
    var x :| x in keys; x
  }

  /** The largest element of a non-empty set of indices (`max(self._ram)`). */
  ghost function MaxKey(keys: set<nat>): (k: nat)
    requires keys != {}
    ensures k in keys
    decreases keys
  {
    var x := Pick(keys);
    if keys == {x} then x
    else
      var m := MaxKey(keys - {x});
      if x > m then x else m
  }

  lemma {:induction false} MaxKeyIsMaximal(keys: set<nat>)
    requires keys != {}
    ensures forall j :: j in keys ==> j <= MaxKey(keys)
    decreases keys
  {
    var x := Pick(keys);
    if keys != {x} {
      MaxKeyIsMaximal(keys - {x});
      forall j | j in keys ensures j <= MaxKey(keys) {
        if j != x { assert j in keys - {x}; }
      }
    }
  }

  /** Every written index lies below the length. */
  lemma KeysBelowLen(ram: Ram)
    ensures forall j :: j in ram ==> j < Len(ram)
  {
    if ram != map[] {
      MaxKeyIsMaximal(ram.Keys);
    }
  }

  /** The length is the one bound that covers every written index and is itself just past one. */
  lemma LenIsLeastBound(ram: Ram, n: nat)
    requires forall j :: j in ram ==> j < n
    requires n > 0 ==> n - 1 in ram
    ensures n == Len(ram)
  {
    KeysBelowLen(ram);
  }

  /** Writing a cell raises the length to cover it and otherwise keeps it. */
  lemma LenOfUpdate(ram: Ram, index: nat, value: Word)
    ensures Len(ram[index := value]) == if index < Len(ram) then Len(ram) else index + 1
  {
    var updated := ram[index := value];
    var m := if index < Len(ram) then Len(ram) else index + 1;
    KeysBelowLen(ram);
    forall j | j in updated ensures j < m {
      if j != index { assert j in ram; }
    }
    assert m - 1 in updated by {
      if index < Len(ram) { assert Len(ram) - 1 in ram; }
    }
    LenIsLeastBound(updated, m);
  }

  class Memory {
    var ram: Ram
    var ptr: int

    /** A fresh memory: every cell reads 0 and `ptr` is at the program base. */
    constructor ()
      ensures ram == map[] && ptr == ADDR_PRG
      ensures Len(ram) == 0 && forall i :: Get(ram, i) == 0
    {
      ram := map[];
      ptr := ADDR_PRG;
    }

    /** `__len__`: scan the written indices for the largest. */
    method Length() returns (n: nat)
      ensures n == Len(ram)
    {
      var rest := ram.Keys;
      n := 0;
      while rest != {}
        invariant rest <= ram.Keys
        invariant forall j :: j in ram && j !in rest ==> j < n
        invariant n > 0 ==> n - 1 in ram
        decreases rest
      {
        var k :| k in rest;
        if k + 1 > n {
          n := k + 1;
        }
        rest := rest - {k};
      }
      LenIsLeastBound(ram, n);
    }

    method Read(index: nat) returns (v: Word)
      ensures v == Get(ram, index)
    {
      v := if index in ram then ram[index] else 0;
    }

    /** Stores `value` when it is a word; otherwise reports failure and stores nothing. */
    method Write(index: nat, value: int) returns (ok: bool)
      modifies this
      ensures ptr == old(ptr)
      ensures ok <==> IsWord(value)
      ensures ram == if ok then Put(old(ram), index, value).value else old(ram)
    {
      ok := 0 <= value < WORD_LIMIT;
      if ok {
        ram := ram[index := value];
      }
    }

    method ReadAccumulator() returns (v: Word)
      ensures v == Get(ram, ADDR_REG)
    {
      v := Read(ADDR_REG);
    }

    method WriteAccumulator(value: int) returns (ok: bool)
      modifies this
      ensures ptr == old(ptr)
      ensures ok <==> IsWord(value)
      ensures ram == if ok then Put(old(ram), ADDR_REG, value).value else old(ram)
    {
      ok := Write(ADDR_REG, value);
    }

    method FlagCmp() returns (v: Word)
      ensures v == Get(ram, ADDR_FLG)
    {
      v := Read(ADDR_FLG);
    }

    method SetFlagCmp(value: int) returns (ok: bool)
      modifies this
      ensures ptr == old(ptr)
      ensures ok <==> IsWord(value)
      ensures ram == if ok then Put(old(ram), ADDR_FLG, value).value else old(ram)
    {
      ok := Write(ADDR_FLG, value);
    }
  }
}
