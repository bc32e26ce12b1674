/** The repository's one custom query: the items that need reordering,
    read from the `solutions` table without changing it. */
module InventoryRepository {
  import opened Model

  /** An item is due for reordering when its stock has fallen to or below its
      threshold; the comparison includes equality. */
  predicate NeedsReorder(s: Solution)
  {
    s.stockQuantity <= s.reorderThreshold
  }

  /** Every row is stored under its own id, as the table's primary key ensures. */
  ghost predicate Keyed(table: map<int, Solution>)
  {
    forall id :: id in table ==> table[id].id == id
  }

  /** The ids of the rows the query selects. */
  ghost function ReorderIds(table: map<int, Solution>): set<int>
  {
    set id | id in table && NeedsReorder(table[id])
  }

  /** The rows whose stock is at or below their threshold. Being a function
      of the table, the query cannot change it. */
  function FindItemsNeedingReorder(table: map<int, Solution>): (items: set<Solution>)
    // sound: only stored rows, and only rows due for reordering
    ensures forall s :: s in items ==> s in table.Values && NeedsReorder(s)
    // complete: every stored row due for reordering
    ensures forall id :: id in table && NeedsReorder(table[id]) ==> table[id] in items
  {
    set id | id in table && NeedsReorder(table[id]) :: table[id]
  }

  /** A row whose stock equals its threshold is reported; one unit more and it is not. */
  lemma BoundaryIsInclusive(table: map<int, Solution>, id: int)
    requires id in table
    ensures table[id].stockQuantity == table[id].reorderThreshold ==>
      table[id] in FindItemsNeedingReorder(table)
    ensures table[id].stockQuantity as int == table[id].reorderThreshold as int + 1 ==>
      table[id] !in FindItemsNeedingReorder(table)
  {
  }

  /** Saving a row under its id replaces that id's old row in the report by
      the new one (when the new one is due) and leaves the other rows alone. */
  lemma ReorderAfterSave(table: map<int, Solution>, s: Solution)
    requires Keyed(table)
    ensures FindItemsNeedingReorder(table[s.id := s]) ==
      (FindItemsNeedingReorder(table) - (if s.id in table then {table[s.id]} else {}))
      + (if NeedsReorder(s) then {s} else {})
  {
    var before, after := FindItemsNeedingReorder(table), FindItemsNeedingReorder(table[s.id := s]);
    var gone: set<Solution> := if s.id in table then {table[s.id]} else {};
    var added: set<Solution> := if NeedsReorder(s) then {s} else {};
    forall t | t in after ensures t in (before - gone) + added {
      var k :| k in table[s.id := s] && NeedsReorder(table[s.id := s][k]) && table[s.id := s][k] == t;
      if k != s.id {
        assert t in before && t.id == k;
      }
    }
    forall t | t in (before - gone) + added ensures t in after {
      if t in before - gone {
        var k :| k in table && NeedsReorder(table[k]) && table[k] == t;
        assert k != s.id;
        assert table[s.id := s][k] == t;
      } else {
        assert table[s.id := s][s.id] == t;
      }
    }
  }

  /** Deleting a row removes exactly that row from the report. */
  lemma ReorderAfterDelete(table: map<int, Solution>, id: int)
    requires Keyed(table)
    ensures FindItemsNeedingReorder(table - {id}) ==
      FindItemsNeedingReorder(table) - (if id in table then {table[id]} else {})
  {
    var before, after := FindItemsNeedingReorder(table), FindItemsNeedingReorder(table - {id});
    var gone: set<Solution> := if id in table then {table[id]} else {};
    forall t | t in before - gone ensures t in after {
      var k :| k in table && NeedsReorder(table[k]) && table[k] == t;
      assert k != id;
      assert (table - {id})[k] == t;
    }
  }

  /** Deleting a row removes its id, and only its id, from the selected ids. */
  lemma ReorderIdsAfterDelete(table: map<int, Solution>, id: int)
    ensures ReorderIds(table - {id}) == ReorderIds(table) - {id}
  {
  }

  /** The report holds one row per selected id: no row is lost or doubled. */
  lemma {:induction false} ReorderCount(table: map<int, Solution>)
    requires Keyed(table)
    ensures |FindItemsNeedingReorder(table)| == |ReorderIds(table)|
    decreases |table|
  {
    if |table| == 0 {
      assert ReorderIds(table) == {};
      assert FindItemsNeedingReorder(table) == {};
    } else {
      if forall k :: k !in table {
        assert false;  // a table of positive size has a key
      }
      var id :| id in table;
      var rest := table - {id};
      assert |rest| == |table| - 1;
      ReorderCount(rest);
      ReorderAfterDelete(table, id);
      ReorderIdsAfterDelete(table, id);
      if NeedsReorder(table[id]) {
        assert id in ReorderIds(table);
        assert table[id] in FindItemsNeedingReorder(table);
      } else {
        assert id !in ReorderIds(table);
        assert table[id] !in FindItemsNeedingReorder(table);
      }
    }
  }
}
