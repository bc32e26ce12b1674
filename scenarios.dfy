/** The service's unit-test scenarios, replayed against a service over a small table. Each
    outcome follows from the operations' contracts alone. */
module ServiceScenarios {
  import opened Model
  import opened InventoryService
  import opened InventoryRepository

  /** A stored item is found by its id. The stored row is the builder's
      default (stock 0 and AVAILABLE), which the service itself would never
      write, yet the lookup returns it as it is. */
  method GetReturnsStoredItem() returns (found: Result<Solution>)
    ensures found.Ok? && found.value.name == "Grappling Hook"
    ensures found.value.stockQuantity == 0 && found.value.status == Available
  {
    var item := Row(1, Blank("Grappling Hook"), Available);
    var service := new SolutionService(map[1 := item], 2);
    found := service.GetSolutionById(1);
  }

  /** Looking up an id that was never stored is NotFound. */
  method GetMissingIdIsNotFound() returns (found: Result<Solution>)
    ensures found == Err(NotFound)
  {
    var service := new SolutionService(map[], 1);
    found := service.GetSolutionById(99);
  }

  /** AVAILABLE with no stock is refused and nothing is saved. */
  method CreateRejectsAvailableWithoutStock() returns (r: Result<Solution>, table: map<int, Solution>)
    ensures r == Err(BadRequest) && table == map[]
  {
    var service := new SolutionService(map[], 1);
    r := service.CreateSolution(Blank("Invisible Tripwire").(category := Some(NonLethal), price := Some(50000)));
    table := service.store;
  }

  /** No status and no stock: saved as OUT_OF_STOCK. */
  method CreateEmptyBox() returns (r: Result<Solution>)
    ensures r.Ok? && r.value.status == OutOfStock
  {
    var service := new SolutionService(map[], 1);
    r := service.CreateSolution(Blank("Empty Box").(status := None));
  }

  /** No status and some stock: saved as AVAILABLE. */
  method CreateLaserAmmo() returns (r: Result<Solution>)
    ensures r.Ok? && r.value.status == Available
  {
    var service := new SolutionService(map[], 1);
    r := service.CreateSolution(Blank("Laser Ammo").(stockQuantity := 50, status := None));
  }

  /** An explicit DISCONTINUED is kept although there is stock. */
  method CreateKeepsExplicitStatus() returns (r: Result<Solution>)
    ensures r.Ok? && r.value.status == Discontinued && r.value.stockQuantity == 10
  {
    var service := new SolutionService(map[], 1);
    r := service.CreateSolution(Blank("Old Jetpack").(stockQuantity := 10, status := Some(Discontinued)));
  }

  /** An update replaces name, stock and status of the stored row. */
  method UpdateReplacesFields() returns (r: Result<Solution>)
    ensures r.Ok? && r.value.name == "New Laser" && r.value.stockQuantity == 15 && r.value.status == Available
  {
    var service := new SolutionService(map[], 1);
    var created := service.CreateSolution(Blank("Old Laser").(stockQuantity := 5));
    r := service.UpdateSolution(created.value.id, Blank("New Laser").(stockQuantity := 15));
  }

  /** Updating a missing id is NotFound, even with a body create would refuse. */
  method UpdateMissingIdIsNotFound() returns (r: Result<Solution>, table: map<int, Solution>)
    ensures r == Err(NotFound) && table == map[]
  {
    var service := new SolutionService(map[], 1);
    BlankDraftIsRefused("Ghost Item");
    r := service.UpdateSolution(99, Blank("Ghost Item"));
    table := service.store;
  }

  /** Updating to AVAILABLE with no stock is refused and the row keeps its values. */
  method UpdateRejectsAvailableWithoutStock() returns (r: Result<Solution>, kept: Result<Solution>)
    ensures r == Err(BadRequest)
    ensures kept.Ok? && kept.value.stockQuantity == 5 && kept.value.status == Available
  {
    var service := new SolutionService(map[], 1);
    var created := service.CreateSolution(Blank("Box").(stockQuantity := 5));
    r := service.UpdateSolution(created.value.id, Blank("Box"));
    kept := service.GetSolutionById(created.value.id);
  }

  /** Stock dropping to zero without a status turns the item OUT_OF_STOCK. */
  method UpdateTogglesToOutOfStock() returns (r: Result<Solution>)
    ensures r.Ok? && r.value.status == OutOfStock
  {
    var service := new SolutionService(map[], 1);
    var created := service.CreateSolution(Blank("Box").(stockQuantity := 5));
    r := service.UpdateSolution(created.value.id, Blank("Box").(status := None));
  }

  /** Restocking without a status turns the item AVAILABLE again. */
  method UpdateTogglesToAvailable() returns (r: Result<Solution>)
    ensures r.Ok? && r.value.status == Available
  {
    var service := new SolutionService(map[], 1);
    var created := service.CreateSolution(Blank("Box").(status := Some(OutOfStock)));
    r := service.UpdateSolution(created.value.id, Blank("Box").(stockQuantity := 10, status := None));
  }

  /** Deleting a stored item succeeds, and it cannot be found afterwards. */
  method DeleteStoredItem() returns (r: Result<()>, after: Result<Solution>)
    ensures r == Ok(()) && after == Err(NotFound)
  {
    var service := new SolutionService(map[], 1);
    var created := service.CreateSolution(Blank("Box").(stockQuantity := 1));
    r := service.DeleteSolution(created.value.id);
    after := service.GetSolutionById(created.value.id);
  }

  /** Deleting an id that was never stored is NotFound and removes nothing. */
  method DeleteMissingIdIsNotFound() returns (r: Result<()>, table: map<int, Solution>)
    ensures r == Err(NotFound) && table == map[]
  {
    var service := new SolutionService(map[], 1);
    r := service.DeleteSolution(99);
    table := service.store;
  }

  /** An item with stock 1 and threshold 5 is reported by the reorder query. */
  method LowStockItemIsReported() returns (items: set<Solution>)
    ensures exists s :: s in items && s.name == "Ammo" && s.stockQuantity == 1
    ensures |items| == 1
  {
    var service := new SolutionService(map[], 1);
    var created := service.CreateSolution(Blank("Ammo").(stockQuantity := 1, reorderThreshold := 5));
    items := FindItemsNeedingReorder(service.store);
    assert created.value in items;
    assert items == {created.value};
  }
}
