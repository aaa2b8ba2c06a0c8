/**
 * The transposition table of ai/search_engine.py: a dictionary from slot
 * index (key mod size) to the last entry stored there, a generation
 * counter bumped at the start of every search, and the replacement rule
 * that decides whether a store overwrites the slot. The class methods are
 * proved against the functions on the table map; the table's properties
 * are lemmas about those functions.
 */
module Transposition {
  import opened Wrappers
  import opened Grids

  /** TTFlag: EXACT = 0, ALPHA = 1 (upper bound), BETA = 2 (lower bound). */
  datatype TTFlag = Exact | Alpha | Beta

  datatype TTEntry = TTEntry(key: int, depth: int, score: int, flag: TTFlag, bestMove: Option<Move>, age: int)

  /** The slot of a key; the hash keys are non-negative, and for a positive size Python's % agrees with Dafny's. */
  function Slot(key: int, size: int): (idx: int)
    requires size > 0
    ensures 0 <= idx < size
  {
    key % size
  }

  /** probe: the entry in the key's slot, if it was stored under this very key. */
  function ProbeIn(table: map<int, TTEntry>, size: int, key: int): Option<TTEntry>
    requires size > 0
  {
    var idx := Slot(key, size);
    if idx in table && table[idx].key == key then Some(table[idx]) else None
  }

  /** The replacement rule: an empty slot, an entry from an older search, or one searched no deeper. */
  predicate ShouldReplace(existing: Option<TTEntry>, generation: int, depth: int)
  {
    existing.None? || existing.value.age < generation || existing.value.depth <= depth
  }

  /** The table after store. */
  function StoredTable(table: map<int, TTEntry>, size: int, generation: int,
                       key: int, depth: int, score: int, flag: TTFlag, bestMove: Option<Move>): map<int, TTEntry>
    requires size > 0
  {
    var idx := Slot(key, size);
    var existing := if idx in table then Some(table[idx]) else None;
    if ShouldReplace(existing, generation, depth)
    then table[idx := TTEntry(key, depth, score, flag, bestMove, generation)]
    else table
  }

  /** Every entry sits in its key's slot and was stored in this or an earlier search. */
  predicate TableValid(table: map<int, TTEntry>, size: int, generation: int)
    requires size > 0
  {
    forall idx :: idx in table ==> 0 <= idx < size && Slot(table[idx].key, size) == idx && table[idx].age <= generation
  }

  /** A store that replaces is read back by a probe of the same key, stamped with the current generation. */
  lemma StoreThenProbe(table: map<int, TTEntry>, size: int, generation: int,
                       key: int, depth: int, score: int, flag: TTFlag, bestMove: Option<Move>)
    requires size > 0
    requires ShouldReplace(if Slot(key, size) in table then Some(table[Slot(key, size)]) else None, generation, depth)
    ensures ProbeIn(StoredTable(table, size, generation, key, depth, score, flag, bestMove), size, key)
         == Some(TTEntry(key, depth, score, flag, bestMove, generation))
  {
  }

  /**
   * store writes the key's slot exactly when the replacement rule allows it:
   * then the slot holds the new entry, otherwise the table is unchanged.
   */
  lemma StoreWritesIffReplace(table: map<int, TTEntry>, size: int, generation: int,
                              key: int, depth: int, score: int, flag: TTFlag, bestMove: Option<Move>)
    requires size > 0
    ensures var idx := Slot(key, size);
            var existing := if idx in table then Some(table[idx]) else None;
            var stored := StoredTable(table, size, generation, key, depth, score, flag, bestMove);
            (ShouldReplace(existing, generation, depth) ==> idx in stored && stored[idx] == TTEntry(key, depth, score, flag, bestMove, generation))
            && (!ShouldReplace(existing, generation, depth) ==> stored == table)
            && (stored != table ==> ShouldReplace(existing, generation, depth))
  {
  }

  /** No slot other than the key's is ever touched. */
  lemma StoreKeepsOtherSlots(table: map<int, TTEntry>, size: int, generation: int,
                             key: int, depth: int, score: int, flag: TTFlag, bestMove: Option<Move>, idx: int)
    requires size > 0 && idx != Slot(key, size)
    ensures var stored := StoredTable(table, size, generation, key, depth, score, flag, bestMove);
            (idx in stored <==> idx in table) && (idx in table ==> stored[idx] == table[idx])
  {
  }

  /** So a probe of a key in another slot sees no change. */
  lemma StoreKeepsOtherProbes(table: map<int, TTEntry>, size: int, generation: int,
                              key: int, depth: int, score: int, flag: TTFlag, bestMove: Option<Move>, other: int)
    requires size > 0 && Slot(other, size) != Slot(key, size)
    ensures ProbeIn(StoredTable(table, size, generation, key, depth, score, flag, bestMove), size, other)
         == ProbeIn(table, size, other)
  {
    StoreKeepsOtherSlots(table, size, generation, key, depth, score, flag, bestMove, Slot(other, size));
  }

  /** A replacing store evicts whatever other key shared the slot: its probe now misses. */
  lemma StoreEvictsCollision(table: map<int, TTEntry>, size: int, generation: int,
                             key: int, depth: int, score: int, flag: TTFlag, bestMove: Option<Move>, other: int)
    requires size > 0 && other != key && Slot(other, size) == Slot(key, size)
    requires ShouldReplace(if Slot(key, size) in table then Some(table[Slot(key, size)]) else None, generation, depth)
    ensures ProbeIn(StoredTable(table, size, generation, key, depth, score, flag, bestMove), size, other) == None
  {
  }

  /** Within one search a deeper entry survives a shallower store. */
  lemma DeeperEntrySurvives(table: map<int, TTEntry>, size: int, generation: int,
                            key: int, depth: int, score: int, flag: TTFlag, bestMove: Option<Move>)
    requires size > 0 && Slot(key, size) in table
    requires table[Slot(key, size)].age >= generation && table[Slot(key, size)].depth > depth
    ensures StoredTable(table, size, generation, key, depth, score, flag, bestMove) == table
  {
  }

  /** A probe only ever answers with an entry stored under the same key, in that key's slot. */
  lemma ProbeMatchesKey(table: map<int, TTEntry>, size: int, key: int)
    requires size > 0
    ensures var r := ProbeIn(table, size, key);
            (r.Some? ==> r.value.key == key && Slot(key, size) in table && r.value == table[Slot(key, size)])
            && (r.None? <==> Slot(key, size) !in table || table[Slot(key, size)].key != key)
  {
  }

  lemma StorePreservesValid(table: map<int, TTEntry>, size: int, generation: int,
                            key: int, depth: int, score: int, flag: TTFlag, bestMove: Option<Move>)
    requires size > 0 && TableValid(table, size, generation)
    ensures TableValid(StoredTable(table, size, generation, key, depth, score, flag, bestMove), size, generation)
  {
  }

  /** A new search keeps every entry valid: ages only fall further behind. */
  lemma NewGenerationPreservesValid(table: map<int, TTEntry>, size: int, generation: int)
    requires size > 0 && TableValid(table, size, generation)
    ensures TableValid(table, size, generation + 1)
  {
  }

  class TranspositionTable {
    /** Number of slots; derived from megabytes in the source, a positive constant here. */
    const size: int
    var table: map<int, TTEntry>
    var generation: int

    ghost predicate Valid()
      reads this
    {
      size > 0 && generation >= 0 && TableValid(table, size, generation)
    }

    constructor (size: int)
      requires size > 0
      ensures Valid() && this.size == size && table == map[] && generation == 0
    {
      this.size := size;
      table := map[];
      generation := 0;
    }

    /** clear: empty table, generation back to 0. */
    method Clear()
      requires Valid()
      modifies this
      ensures Valid() && table == map[] && generation == 0
    {
      table := map[];
      generation := 0;
    }

    /** new_search: the next generation; the entries stay. */
    method NewSearch()
      requires Valid()
      modifies this
      ensures Valid() && generation == old(generation) + 1 && table == old(table)
    {
      NewGenerationPreservesValid(table, size, generation);
      generation := generation + 1;
    }

    /** probe. */
    function Probe(key: int): (r: Option<TTEntry>)
      reads this
      requires size > 0
      ensures r.Some? ==> r.value.key == key && Slot(key, size) in table && r.value == table[Slot(key, size)]
      ensures r.None? <==> Slot(key, size) !in table || table[Slot(key, size)].key != key
    {
      ProbeMatchesKey(table, size, key);
      ProbeIn(table, size, key)
    }

    /** store: overwrite the key's slot if the replacement rule allows it. */
    method Store(key: int, depth: int, score: int, flag: TTFlag, bestMove: Option<Move>)
      requires Valid()
      modifies this
      ensures Valid() && generation == old(generation)
      ensures table == StoredTable(old(table), size, generation, key, depth, score, flag, bestMove)
    {
      StorePreservesValid(table, size, generation, key, depth, score, flag, bestMove);
      var idx := key % size;
      var existing := if idx in table then Some(table[idx]) else None;
      var shouldReplace := existing.None? || existing.value.age < generation || existing.value.depth <= depth;
      if shouldReplace {
        table := table[idx := TTEntry(key, depth, score, flag, bestMove, generation)];
      }
    }
  }
}
