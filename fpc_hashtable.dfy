/**
 * The aggregation hash table of the host runtime (src/FPC_Hashtable.h).
 *
 * One record per source location (file-name pointer, line) holds ten event
 * counters.  The table is a fixed number of buckets; each bucket is a chain
 * of records.  Chains are modelled as sequences of record values held in the
 * bucket array: walking `next` pointers becomes indexing, relinking becomes
 * rebuilding the bucket's sequence.
 */
module FpcHashtable {
  import opened Wrappers

  /** 2^64: unsigned 64-bit arithmetic in the source wraps modulo this. */
  const U64: nat := 0x1_0000_0000_0000_0000

  type u64 = x: nat | x < U64

  /** A `char *` file name: the address the table keys on, and the text it points to. */
  datatype FileRef = FileRef(addr: u64, text: string)

  /** The ten event kinds, in the order the source declares, traps and prints them. */
  datatype EventKind =
    | InfinityPos | InfinityNeg | NaN | DivisionZero | Cancellation
    | Comparison | Underflow | LatentInfinityPos | LatentInfinityNeg | LatentUnderflow

  const AllKinds: seq<EventKind> :=
    [InfinityPos, InfinityNeg, NaN, DivisionZero, Cancellation,
     Comparison, Underflow, LatentInfinityPos, LatentInfinityNeg, LatentUnderflow]

  /** The ten `uint64_t` counters of an `_FPC_ITEM_T_` (wrap-around is not modelled). */
  datatype Counters = Counters(
    infinityPos: nat, infinityNeg: nat, nan: nat, divisionZero: nat, cancellation: nat,
    comparison: nat, underflow: nat, latentInfinityPos: nat, latentInfinityNeg: nat,
    latentUnderflow: nat)

  const NoEvents: Counters := Counters(0, 0, 0, 0, 0, 0, 0, 0, 0, 0)

  /** The counter of one kind. */
  function Count(c: Counters, k: EventKind): nat
  {
    match k
    case InfinityPos => c.infinityPos
    case InfinityNeg => c.infinityNeg
    case NaN => c.nan
    case DivisionZero => c.divisionZero
    case Cancellation => c.cancellation
    case Comparison => c.comparison
    case Underflow => c.underflow
    case LatentInfinityPos => c.latentInfinityPos
    case LatentInfinityNeg => c.latentInfinityNeg
    case LatentUnderflow => c.latentUnderflow
  }

  /** Componentwise sum: what `_FPC_HT_SET_` adds into an existing record. */
  function AddCounters(a: Counters, b: Counters): (c: Counters)
    ensures forall k :: Count(c, k) == Count(a, k) + Count(b, k)
  {
    Counters(
      a.infinityPos + b.infinityPos, a.infinityNeg + b.infinityNeg, a.nan + b.nan,
      a.divisionZero + b.divisionZero, a.cancellation + b.cancellation,
      a.comparison + b.comparison, a.underflow + b.underflow,
      a.latentInfinityPos + b.latentInfinityPos, a.latentInfinityNeg + b.latentInfinityNeg,
      a.latentUnderflow + b.latentUnderflow)
  }

  /** The identity of a record: the address of the file name and the line. */
  datatype Key = Key(addr: u64, line: u64)

  /** `_FPC_ITEM_T_` without its `next` link. */
  datatype Item = Item(file: FileRef, line: u64, events: Counters)

  function KeyOf(it: Item): Key
  {
    Key(it.file.addr, it.line)
  }

  /** `_FPC_ITEMS_EQUAL_`: pointer identity of the file name and equal lines. */
  function ItemsEqual(x: Item, y: Item): (r: bool)
    ensures r <==> KeyOf(x) == KeyOf(y)
  {
    x.file.addr == y.file.addr && x.line == y.line
  }

  /** Two items naming equal text through different pointers are different keys. */
  lemma ItemsEqualIgnoresText(x: Item, y: Item)
    requires x.file.text == y.file.text && x.line == y.line
    requires x.file.addr != y.file.addr
    ensures !ItemsEqual(x, y)
  {
  }

  /** `_FPC_HT_HASH_`: (pointer + line) with 64-bit wrap-around, modulo the table size. */
  function Hash(k: Key, size: nat): (b: nat)
    requires 1 <= size
    ensures b < size
    ensures b == (k.addr + k.line) % U64 % size
  {
    var key := (k.addr + k.line) % U64;
    key % size
  }

  /** Position of the first record of a chain with key k, or |c| when there is none. */
  function KeyIndex(c: seq<Item>, k: Key): (j: nat)
    ensures j <= |c|
    ensures j < |c| ==> KeyOf(c[j]) == k
    ensures forall i :: 0 <= i < j ==> KeyOf(c[i]) != k
  {
    if c == [] then 0
    else if KeyOf(c[0]) == k then 0
    else 1 + KeyIndex(c[1..], k)
  }

  /** The counters recorded for k in a chain, if any. */
  function FindIn(c: seq<Item>, k: Key): Option<Counters>
  {
    var j := KeyIndex(c, k);
    if j < |c| then Some(c[j].events) else None
  }

  ghost predicate UniqueKeys(c: seq<Item>)
  {
    forall i, j :: 0 <= i < j < |c| ==> KeyOf(c[i]) != KeyOf(c[j])
  }

  /** Number of records over all chains. */
  function TotalRecords(bs: seq<seq<Item>>): nat
  {
    if bs == [] then 0 else TotalRecords(bs[..|bs| - 1]) + |bs[|bs| - 1]|
  }

  /** The records in bucket order, then chain order. */
  function Flatten(bs: seq<seq<Item>>): (r: seq<Item>)
    ensures |r| == TotalRecords(bs)
  {
    if bs == [] then [] else Flatten(bs[..|bs| - 1]) + bs[|bs| - 1]
  }

  lemma {:induction false} TotalRecordsUpdate(bs: seq<seq<Item>>, b: nat, c: seq<Item>)
    requires b < |bs|
    ensures TotalRecords(bs[b := c]) == TotalRecords(bs) - |bs[b]| + |c|
    decreases |bs|
  {
    var last := |bs| - 1;
    if b < last {
      assert bs[b := c][..last] == bs[..last][b := c];
      TotalRecordsUpdate(bs[..last], b, c);
    } else {
      assert bs[b := c][..last] == bs[..last];
    }
  }

  lemma KeyIndexIsUnique(c: seq<Item>, k: Key, j: nat)
    requires j <= |c|
    requires j < |c| ==> KeyOf(c[j]) == k
    requires forall i :: 0 <= i < j ==> KeyOf(c[i]) != k
    ensures KeyIndex(c, k) == j
  {
  }

  /** Only the counters of the record at j change: every lookup sees the same positions. */
  lemma FindInAfterAdd(c: seq<Item>, j: nat, e: Counters, k: Key)
    requires j < |c| && UniqueKeys(c)
    ensures var c' := c[j := c[j].(events := e)];
      FindIn(c', k) == if k == KeyOf(c[j]) then Some(e) else FindIn(c, k)
  {
    var c' := c[j := c[j].(events := e)];
    var m := KeyIndex(c, k);
    KeyIndexIsUnique(c', k, m);
    if k == KeyOf(c[j]) {
      KeyIndexIsUnique(c, k, j);
    }
  }

  /** Appending a record with a fresh key makes it visible and hides nothing. */
  lemma FindInAfterAppend(c: seq<Item>, it: Item, k: Key)
    requires forall i :: 0 <= i < |c| ==> KeyOf(c[i]) != KeyOf(it)
    ensures FindIn(c + [it], k) == if k == KeyOf(it) then Some(it.events) else FindIn(c, k)
  {
    var c' := c + [it];
    var m := KeyIndex(c, k);
    if m < |c| {
      KeyIndexIsUnique(c', k, m);
    } else if k == KeyOf(it) {
      KeyIndexIsUnique(c', k, |c|);
    } else {
      KeyIndexIsUnique(c', k, |c| + 1);
    }
  }

  /** What a merge of `item` does to the counters stored for key k. */
  function Merged(old_: Option<Counters>, item: Item, k: Key): Option<Counters>
  {
    if k != KeyOf(item) then old_
    else match old_
      case None => Some(item.events)
      case Some(c) => Some(AddCounters(c, item.events))
  }

  /**
   * The chain after merging `item`: its counters added into the record with its
   * key, or, when the chain has none, a copy of it appended at the tail.
   */
  function SetChain(c: seq<Item>, item: Item): seq<Item>
  {
    var j := KeyIndex(c, KeyOf(item));
    if j < |c| then c[j := c[j].(events := AddCounters(c[j].events, item.events))] else c + [item]
  }

  /** Every record sits in the bucket its key hashes to, and no chain holds a key twice. */
  ghost predicate WellPlaced(bs: seq<seq<Item>>, size: nat)
    requires 1 <= size
  {
    && |bs| == size
    && (forall b, i :: 0 <= b < size && 0 <= i < |bs[b]| ==> Hash(KeyOf(bs[b][i]), size) == b)
    && (forall b :: 0 <= b < size ==> UniqueKeys(bs[b]))
  }

  /** The counters stored for a key: only its hash bucket can hold it. */
  function TableLookup(bs: seq<seq<Item>>, size: nat, k: Key): Option<Counters>
    requires 1 <= size && |bs| == size
  {
    FindIn(bs[Hash(k, size)], k)
  }

  /** Well-placed buckets hold each key at most once over the whole table. */
  lemma WellPlacedKeysUnique(bs: seq<seq<Item>>, size: nat, b1: nat, i1: nat, b2: nat, i2: nat)
    requires 1 <= size && WellPlaced(bs, size)
    requires b1 < size && i1 < |bs[b1]| && b2 < size && i2 < |bs[b2]|
    requires KeyOf(bs[b1][i1]) == KeyOf(bs[b2][i2])
    ensures b1 == b2 && i1 == i2
  {
  }

  lemma SetChainWellPlaced(bs: seq<seq<Item>>, size: nat, item: Item)
    requires 1 <= size && WellPlaced(bs, size)
    ensures var bin := Hash(KeyOf(item), size);
      WellPlaced(bs[bin := SetChain(bs[bin], item)], size)
  {
    var bin := Hash(KeyOf(item), size);
    var c := bs[bin];
    var j := KeyIndex(c, KeyOf(item));
    var c' := SetChain(c, item);
    assert forall i :: 0 <= i < |c| ==> KeyOf(c'[i]) == KeyOf(c[i]);
    if j == |c| {
      assert c'[|c|] == item;
    }
  }

  lemma SetChainTotal(bs: seq<seq<Item>>, size: nat, item: Item)
    requires 1 <= size && |bs| == size
    ensures var bin := Hash(KeyOf(item), size);
      TotalRecords(bs[bin := SetChain(bs[bin], item)])
        == TotalRecords(bs) + (if KeyIndex(bs[bin], KeyOf(item)) < |bs[bin]| then 0 else 1)
  {
    var bin := Hash(KeyOf(item), size);
    TotalRecordsUpdate(bs, bin, SetChain(bs[bin], item));
  }

  lemma SetChainLookup(bs: seq<seq<Item>>, size: nat, item: Item, k: Key)
    requires 1 <= size && WellPlaced(bs, size)
    ensures var bin := Hash(KeyOf(item), size);
      TableLookup(bs[bin := SetChain(bs[bin], item)], size, k)
        == Merged(TableLookup(bs, size, k), item, k)
  {
    var bin := Hash(KeyOf(item), size);
    var c := bs[bin];
    var j := KeyIndex(c, KeyOf(item));
    if Hash(k, size) == bin {
      if j < |c| {
        FindInAfterAdd(c, j, AddCounters(c[j].events, item.events), k);
      } else {
        FindInAfterAppend(c, item, k);
      }
    }
  }

  /** `_FPC_HTABLE_T`: `size` buckets, `n` records. */
  class HashTable {
    const size: nat
    var n: nat
    const table: array<seq<Item>>

    /**
     * The table invariant: `n` is the number of chained records, every record
     * sits in the bucket its key hashes to, and no key appears twice.
     */
    ghost predicate Valid()
      reads this, table
    {
      && 1 <= size
      && table.Length == size
      && WellPlaced(table[..], size)
      && n == TotalRecords(table[..])
    }

    /** The counters the table holds for a key, if any. */
    ghost function Lookup(k: Key): Option<Counters>
      reads this, table
      requires Valid()
    {
      TableLookup(table[..], size, k)
    }

    constructor Init(size: nat)
      requires 1 <= size
      ensures Valid() && fresh(table)
      ensures this.size == size && n == 0
      ensures forall b :: 0 <= b < size ==> table[b] == []
      ensures forall k :: Lookup(k) == None
    {
      this.size := size;
      var buckets := new seq<Item>[size];
      var i := 0;
      while i < size
        invariant 0 <= i <= size
        invariant forall b :: 0 <= b < i ==> buckets[b] == []
      {
        buckets[i] := [];
        i := i + 1;
      }
      table := buckets;
      n := 0;
      new;
      assert table[..] == EmptyBuckets(size);
      EmptyTotal(size);
    }

    /**
     * `_FPC_HT_SET_`: walk the chain of the item's bucket; on a key match add
     * the item's counters into that record, otherwise append a copy of the
     * item (as the head of an empty bucket, else at the tail) and count it.
     */
    method Set(item: Item)
      requires Valid()
      modifies this, table
      ensures Valid()
      ensures var bin := Hash(KeyOf(item), size);
        && (forall b :: 0 <= b < size && b != bin ==> table[b] == old(table[b]))
        && table[bin] == SetChain(old(table[bin]), item)
        && n == old(n) + (if KeyIndex(old(table[bin]), KeyOf(item)) < |old(table[bin])| then 0 else 1)
      ensures forall k :: Lookup(k) == Merged(old(Lookup(k)), item, k)
    {
      var bin := Hash(KeyOf(item), size);
      var chain := table[bin];
      var i := 0;
      while i < |chain| && !ItemsEqual(item, chain[i])
        invariant 0 <= i <= |chain|
        invariant forall j :: 0 <= j < i ==> KeyOf(chain[j]) != KeyOf(item)
      {
        i := i + 1;
      }
      KeyIndexIsUnique(chain, KeyOf(item), i);
      ghost var before := table[..];
      if i < |chain| && ItemsEqual(item, chain[i]) {
        table[bin] := chain[i := chain[i].(events := AddCounters(chain[i].events, item.events))];
      } else {
        n := n + 1;
        if i == 0 {
          // The bucket was empty: the copy becomes its head.
          table[bin] := [item] + chain;
          assert chain == [];
        } else if i == |chain| {
          // The end of the chain: the copy becomes its tail.
          table[bin] := chain + [item];
        } else {
          // Inserting mid-chain cannot happen: the walk stops early only on a match.
          assert false;
        }
      }
      assert table[bin] == SetChain(chain, item);
      assert table[..] == before[bin := SetChain(chain, item)];
      SetChainWellPlaced(before, size, item);
      SetChainTotal(before, size, item);
      forall k ensures Lookup(k) == Merged(TableLookup(before, size, k), item, k) {
        SetChainLookup(before, size, item, k);
      }
    }
  }

  function EmptyBuckets(size: nat): (bs: seq<seq<Item>>)
    ensures |bs| == size && forall b :: 0 <= b < size ==> bs[b] == []
  {
    seq(size, _ => [])
  }

  lemma {:induction false} EmptyTotal(size: nat)
    ensures TotalRecords(EmptyBuckets(size)) == 0
  {
    if size > 0 {
      assert EmptyBuckets(size)[..size - 1] == EmptyBuckets(size - 1);
      EmptyTotal(size - 1);
    }
  }

  /**
   * `_FPC_HT_CREATE_`: a size below 1 yields NULL; otherwise a table of `size`
   * empty buckets holding no record.  (Running out of memory, on which the
   * source exits the process, is not modelled.)
   */
  method Create(size: int) returns (h: HashTable?)
    ensures size < 1 <==> h == null
    ensures h != null ==> && fresh(h) && fresh(h.table) && h.Valid()
                          && h.size == size && h.n == 0
                          && (forall b :: 0 <= b < h.size ==> h.table[b] == [])
  {
    if size < 1 {
      return null;
    }
    h := new HashTable.Init(size);
  }
}
