/**
 * The terminal device of lrc/lrc.py: a poller that drains the I/O cell.
 * A non-zero word at ADDR_IO is taken as a character code, queued for output
 * and the cell is cleared so the program can write the next one. The asyncio
 * rescheduling of the poll and the actual write to standard output are not
 * modelled: one `Listen` is one poll, and what it would print is returned.
 */
module Terminal {
  import opened Wrappers
  import opened Memory

  /** One poll on a store: the word taken from ADDR_IO, if any, and the store afterwards. */
  function Drain(ram: Ram): (Option<Word>, Ram) {
    var v := Get(ram, ADDR_IO);
    if v != 0 then (Some(v), ram[ADDR_IO := 0]) else (None, ram)
  }

  /**
   * A poll takes exactly the non-zero word at ADDR_IO, leaves the cell
   * reading 0, and changes neither any other cell nor the length.
   */
  lemma DrainClears(ram: Ram)
    ensures var (taken, after) := Drain(ram);
      (taken.Some? <==> Get(ram, ADDR_IO) != 0)
      && (taken.Some? ==> taken.value == Get(ram, ADDR_IO))
      && Get(after, ADDR_IO) == 0
      && (forall j :: j != ADDR_IO ==> Get(after, j) == Get(ram, j))
      && Len(after) == Len(ram)
  {
    if Get(ram, ADDR_IO) != 0 {
      PutFrame(ram, ADDR_IO, 0);
    }
  }

  /** Polling is idempotent: a second poll with no write in between takes nothing and changes nothing. */
  lemma DrainTwice(ram: Ram)
    ensures Drain(Drain(ram).1) == (None, Drain(ram).1)
  {
    DrainClears(ram);
  }

  class TerminalStdout {
    const memory: Memory
    var buf: seq<Word>

    constructor (memory: Memory)
      ensures this.memory == memory && buf == []
    {
      this.memory := memory;
      buf := [];
    }

    /** `flush`: hand the queued character codes to the output and empty the queue. */
    method Flush() returns (out: seq<Word>)
      modifies this
      ensures out == old(buf) && buf == []
    {
      out := buf;
      buf := [];
    }

    /**
     * `listen`: one poll. A non-zero I/O word is queued and the cell cleared;
     * the `finally` clause then flushes, so the queue ends empty and the
     * output is whatever was queued followed by the word just taken.
     */
    method Listen() returns (out: seq<Word>)
      modifies this, memory
      ensures memory.ptr == old(memory.ptr) && buf == []
      ensures var (taken, after) := Drain(old(memory.ram));
        memory.ram == after && out == old(buf) + (if taken.Some? then [taken.value] else [])
    {
      var v := memory.Read(ADDR_IO);
      if v != 0 {
        buf := buf + [v];
        var _ := memory.Write(ADDR_IO, 0);
      }
      out := Flush();
    }
  }
}
