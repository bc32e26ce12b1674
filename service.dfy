/** The inventory service: the status rule applied on every write, and the
    service object whose state is the `solutions` table. */
module InventoryService {
  import opened Model

  /** The status rule shared by create and update, evaluated on the incoming
      body before anything is written. An absent status is derived from the
      stock; an explicit AVAILABLE with no stock is refused; any other
      explicit status is kept as given. */
  function ResolveStatus(requested: Option<Status>, stock: Int32): (r: Result<Status>)
    // refused exactly when AVAILABLE is asked for with no stock, and then as a bad request
    ensures r.Err? <==> requested == Some(Available) && stock == 0
    ensures r.Err? ==> r.error == BadRequest
    // absent status: OUT_OF_STOCK when there is no stock, AVAILABLE otherwise
    ensures requested.None? ==> r.Ok? && (r.value == OutOfStock <==> stock == 0)
    ensures requested.None? ==> r.Ok? && (r.value == Available <==> stock != 0)
    // an accepted explicit status passes through unchanged
    ensures requested.Some? && r.Ok? ==> r.value == requested.value
    // whatever is accepted keeps the stock rule
    ensures r.Ok? ==> StockConsistent(r.value, stock)
  {
    match requested
    case None => if stock == 0 then Ok(OutOfStock) else Ok(Available)
    case Some(s) => if s == Available && stock == 0 then Err(BadRequest) else Ok(s)
  }

  /** Applying the rule to the status it produced changes nothing: a body
      whose status was resolved once is accepted again with the same status. */
  lemma ResolveStatusIdempotent(requested: Option<Status>, stock: Int32)
    ensures var r := ResolveStatus(requested, stock);
      r.Ok? ==> ResolveStatus(Some(r.value), stock) == r
  {
  }

  /** A body built with nothing but a name (no stock, status AVAILABLE by
      default) is refused by the rule. */
  lemma BlankDraftIsRefused(name: string)
    ensures ResolveStatus(Blank(name).status, Blank(name).stockQuantity) == Err(BadRequest)
  {
  }

  /** The row saved for a new body: the body's fields, the id the table
      assigned, and the resolved status. */
  function Row(id: int, draft: Draft, status: Status): Solution
  {
    Solution(id, draft.name, draft.description, draft.category,
             draft.stockQuantity, draft.reorderThreshold, draft.price, status)
  }

  /** An update's seven setters on the loaded row: every mutable field is
      taken from the body, the id is kept. */
  function Overwrite(existing: Solution, draft: Draft, status: Status): Solution
  {
    existing.(name := draft.name,
              description := draft.description,
              category := draft.category,
              stockQuantity := draft.stockQuantity,
              reorderThreshold := draft.reorderThreshold,
              price := draft.price,
              status := status)
  }

  /** Update is a full replace: of the modelled fields nothing of the old row
      survives but its id,
      so the result is the row a create of the same body would have saved
      under that id. */
  lemma OverwriteIsFullReplace(existing: Solution, draft: Draft, status: Status)
    ensures Overwrite(existing, draft, status) == Row(existing.id, draft, status)
    ensures forall other: Solution :: other.id == existing.id ==>
      Overwrite(other, draft, status) == Overwrite(existing, draft, status)
  {
  }

  class SolutionService {
    /** The `solutions` table, keyed by id. */
    var store: map<int, Solution>
    /** The next value of the table's identity column. */
    var nextId: int

    /** What the table guarantees: ids are positive, below the identity
        counter, and match their key. Rows written by other means may break
        the stock rule, so this says nothing about statuses. */
    ghost predicate Valid()
      reads this
    {
      && 1 <= nextId
      && forall id :: id in store ==> 1 <= id < nextId && store[id].id == id
    }

    /** No row of the table breaks the stock rule. The service's writes keep
        this, but it is not assumed of the table the service is given. */
    ghost predicate AllConsistent()
      reads this
    {
      forall id :: id in store ==> StockConsistent(store[id].status, store[id].stockQuantity)
    }

    /** A service over an existing table, whose rows may be anything the
        table's keys allow, and its identity counter. */
    constructor (table: map<int, Solution>, next: int)
      requires 1 <= next
      requires forall id :: id in table ==> 1 <= id < next && table[id].id == id
      ensures Valid()
      ensures store == table && nextId == next
    {
      store := table;
      nextId := next;
    }

    /** Every row of the table, each once. */
    function GetAllSolutions(): (all: set<Solution>)
      reads this
      requires Valid()
      ensures forall s :: s in all <==> s.id in store && store[s.id] == s
    {
      var all := set id | id in store :: store[id];
      assert forall s :: s in all ==> s.id in store && store[s.id] == s by {
        forall s | s in all ensures s.id in store && store[s.id] == s {
          var k :| k in store && store[k] == s;
        }
      }
      all
    }

    /** The row stored under `id`, or NotFound; never a default row. */
    function GetSolutionById(id: int): (r: Result<Solution>)
      reads this
      requires Valid()
      ensures r.Ok? <==> id in store
      ensures r.Ok? ==> r.value == store[id] && r.value.id == id
      ensures r.Err? ==> r.error == NotFound
    {
      if id in store then Ok(store[id]) else Err(NotFound)
    }

    /** Resolves the body's status, then saves it under a fresh id. A refused
        body writes nothing. */
    method CreateSolution(draft: Draft) returns (r: Result<Solution>)
      requires Valid()
      modifies this
      ensures Valid()
      ensures draft.status == Some(Available) && draft.stockQuantity == 0 ==>
        r == Err(BadRequest) && store == old(store) && nextId == old(nextId)
      ensures match ResolveStatus(draft.status, draft.stockQuantity)
        case Err(e) =>
          r == Err(e) && store == old(store) && nextId == old(nextId)
        case Ok(status) =>
          && old(nextId) !in old(store)
          && r == Ok(Row(old(nextId), draft, status))
          && store == old(store)[old(nextId) := r.value]
          && nextId == old(nextId) + 1
      ensures r.Ok? ==> StockConsistent(r.value.status, r.value.stockQuantity)
      ensures old(AllConsistent()) ==> AllConsistent()
    {
      var status := ResolveStatus(draft.status, draft.stockQuantity);
      if status.Err? {
        return Err(status.error);
      }
      var saved := Row(nextId, draft, status.value);
      store := store[nextId := saved];
      nextId := nextId + 1;
      r := Ok(saved);
    }

    /** Loads the row (NotFound if absent), resolves the body's status, then
        overwrites the row's mutable fields and saves it. The existence check
        comes first, so a missing id is NotFound whatever the body holds. */
    method UpdateSolution(id: int, draft: Draft) returns (r: Result<Solution>)
      requires Valid()
      modifies this
      ensures Valid() && nextId == old(nextId)
      ensures id !in old(store) ==> r == Err(NotFound) && store == old(store)
      ensures id in old(store) ==> match ResolveStatus(draft.status, draft.stockQuantity)
        case Err(e) =>
          r == Err(e) && store == old(store)
        case Ok(status) =>
          && r == Ok(Overwrite(old(store)[id], draft, status))
          && store == old(store)[id := r.value]
      ensures r.Ok? ==> r.value.id == id && StockConsistent(r.value.status, r.value.stockQuantity)
      ensures old(AllConsistent()) ==> AllConsistent()
    {
      if id !in store {
        return Err(NotFound);
      }
      var existing := store[id];
      var status := ResolveStatus(draft.status, draft.stockQuantity);
      if status.Err? {
        return Err(status.error);
      }
      var updated := Overwrite(existing, draft, status.value);
      store := store[id := updated];
      r := Ok(updated);
    }

    /** Removes the row stored under `id`, or reports NotFound and removes nothing. */
    method DeleteSolution(id: int) returns (r: Result<()>)
      requires Valid()
      modifies this
      ensures Valid() && nextId == old(nextId)
      ensures id !in old(store) ==> r == Err(NotFound) && store == old(store)
      ensures id in old(store) ==> r == Ok(()) && store == old(store) - {id}
      ensures old(AllConsistent()) ==> AllConsistent()
    {
      if id !in store {
        return Err(NotFound);
      }
      store := store - {id};
      r := Ok(());
    }
  }
}
