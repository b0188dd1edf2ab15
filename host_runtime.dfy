/**
 * The host runtime's entry points (src/Runtime_cpu.h): initialisation, the
 * per-instruction checks the instrumented program calls, and the final
 * report.  The globals `_FPC_HTABLE_`, `_FPC_PROG_INPUTS`/`_FPC_PROG_ARGS` and
 * the environment become the fields of a `Runtime` object.
 */
module HostRuntime {
  import opened Wrappers
  import opened FpcHashtable
  import opened FpcReport
  import opened HostEvents
  import opened HostTrap

  /** The number of buckets `_FPC_INIT_HASH_TABLE_` asks for. */
  const TableSize: nat := 1000

  /** The record `_FPC_FP32_CHECK_` and `_FPC_FP64_CHECK_` build for one instruction. */
  function CheckItem(file: FileRef, loc: int, events: Counters): (item: Item)
    ensures KeyOf(item) == Key(file.addr, ToU64(loc))
    ensures item.events == events
  {
    Item(file, ToU64(loc), events)
  }

  class Runtime {
    /** `_FPC_HTABLE_`. */
    var table: HashTable
    /** `_FPC_PROG_ARGS`, `_FPC_PROG_INPUTS` of them. */
    var args: seq<string>
    /** The process environment, as `getenv` sees it. */
    const env: Env

    ghost predicate Valid()
      reads this, table, table.table
    {
      table.Valid() && table.size == TableSize
    }

    /** `_FPC_INIT_FPCHECKER`: no program arguments, an empty table of 1000 buckets. */
    constructor Init(env: Env)
      ensures Valid() && fresh(table) && fresh(table.table)
      ensures this.env == env && args == []
      ensures table.n == 0 && forall b :: 0 <= b < table.size ==> table.table[b] == []
    {
      var h := Create(TableSize);
      table := h;
      args := [];
      this.env := env;
    }

    /** `_FPC_INIT_ARGS_FPCHECKER`: remember argv, then the same empty table. */
    constructor InitArgs(env: Env, argv: seq<string>)
      ensures Valid() && fresh(table) && fresh(table.table)
      ensures this.env == env && args == argv
      ensures table.n == 0 && forall b :: 0 <= b < table.size ==> table.table[b] == []
    {
      var h := Create(TableSize);
      table := h;
      args := argv;
      this.env := env;
    }

    /**
     * `_FPC_FP32_CHECK_`: when `cond` is non-zero, classify the result and
     * operands; if any event occurred, add the record into the table and run
     * the trap check on it.  Nothing changes otherwise.
     */
    method Check32(x: bv32, y: bv32, z: bv32, loc: int, file: FileRef, op: int, cond: int)
      returns (notices: seq<TrapNotice>, aborted: bool)
      requires Valid()
      modifies table, table.table
      ensures Valid() && table == old(table)
      ensures var item := CheckItem(file, loc, Events32(x, y, z, op));
        if cond != 0 && EventOccurred(item.events) then
          && (forall k :: table.Lookup(k) == Merged(old(table.Lookup(k)), item, k))
          && var bin := Hash(KeyOf(item), TableSize);
          && table.table[..] == old(table.table[..])[bin := SetChain(old(table.table[bin]), item)]
          && table.n == old(table.n) + (if KeyIndex(old(table.table[bin]), KeyOf(item)) < |old(table.table[bin])| then 0 else 1)
          && (notices, aborted) == TrapOutcome(env, item, loc, file.text)
        else
          && table.table[..] == old(table.table[..]) && table.n == old(table.n)
          && notices == [] && !aborted
    {
      notices, aborted := [], false;
      if cond == 0 {
        return;
      }
      var item := CheckItem(file, loc, Events32(x, y, z, op));
      if EventOccurred(item.events) {
        table.Set(item);
        notices, aborted := CheckAndTrap(env, item, loc, file.text);
      }
    }

    /** `_FPC_FP64_CHECK_`: the same for doubles. */
    method Check64(x: bv64, y: bv64, z: bv64, loc: int, file: FileRef, op: int, cond: int)
      returns (notices: seq<TrapNotice>, aborted: bool)
      requires Valid()
      modifies table, table.table
      ensures Valid() && table == old(table)
      ensures var item := CheckItem(file, loc, Events64(x, y, z, op));
        if cond != 0 && EventOccurred(item.events) then
          && (forall k :: table.Lookup(k) == Merged(old(table.Lookup(k)), item, k))
          && var bin := Hash(KeyOf(item), TableSize);
          && table.table[..] == old(table.table[..])[bin := SetChain(old(table.table[bin]), item)]
          && table.n == old(table.n) + (if KeyIndex(old(table.table[bin]), KeyOf(item)) < |old(table.table[bin])| then 0 else 1)
          && (notices, aborted) == TrapOutcome(env, item, loc, file.text)
        else
          && table.table[..] == old(table.table[..]) && table.n == old(table.n)
          && notices == [] && !aborted
    {
      notices, aborted := [], false;
      if cond == 0 {
        return;
      }
      var item := CheckItem(file, loc, Events64(x, y, z, op));
      if EventOccurred(item.events) {
        table.Set(item);
        notices, aborted := CheckAndTrap(env, item, loc, file.text);
      }
    }

    /** `_FPC_PRINT_LOCATIONS_`: the JSON report of the table. */
    method PrintLocations() returns (lines: seq<Line>)
      requires Valid()
      ensures lines == ReportLines(ProgInput(args), table.table[..], table.n)
    {
      lines := PrintHashTable(table, args);
    }
  }
}
