# Inventory service model

A Dafny model of the inventory backend's business core: the `SolutionService`
that creates, reads, replaces and deletes `Solution` rows, and the repository
query that lists the items due for reordering.

- `model.dfy` (module `Model`): the `Solution` row, the incoming request body
  (`Draft`, whose status may be absent and which carries no id), the `Status`
  and `Category` enumerations, Java's 32-bit `int` as `Int32`, the builder's
  defaults (`Blank`: no stock, reorder threshold 10, status AVAILABLE), the
  error kinds `NotFound` (HTTP 404) and `BadRequest` (HTTP 400), and the
  stock rule `StockConsistent` (never AVAILABLE with zero stock).
- `service.dfy` (module `InventoryService`): the status rule `ResolveStatus`,
  shared by create and update, as a pure function; the field overwrite of an
  update; and the class `SolutionService`, whose state is the `solutions` table
  as a `map<int, Solution>` plus the identity counter that hands out new ids.
  Its object invariant `Valid()` says every row is stored under its own id,
  below the counter. The service may be given a table holding any rows
  (including ones that break the stock rule); every row it writes keeps the
  rule, and if the whole table kept it before a write it keeps it after.
  Thrown `ResponseStatusException`s become `Err(NotFound)` / `Err(BadRequest)`
  results.
- `repository.dfy` (module `InventoryRepository`): `findItemsNeedingReorder`
  as a function of the table (so it cannot change the table), with lemmas on
  how its answer moves when a row is saved or deleted, and that it reports
  one row per selected id.
- `scenarios.dfy` (module `ServiceScenarios`): the service's unit tests,
  replayed against a service over a small table; each expected outcome is proved from the
  operations' contracts.

Where the description of the system and the code differ, the model follows the
code:
- the service never checks that stock is non-negative, so `ResolveStatus`
  and the service accept any 32-bit stock (a negative stock with no status
  becomes AVAILABLE); non-negativity is a bean-validation annotation;
- the HTTP controller has no PUT or DELETE mapping; update and delete exist
  only as service methods, which is what is modelled.

## Model

| member | source | states |
|---|---|---|
| InventoryService.ResolveStatus | src/main/java/com/problemsolutionsltd/inventory/service/SolutionService.java:32-47 | refused (BadRequest) exactly when AVAILABLE is asked for with zero stock; an absent status becomes OUT_OF_STOCK iff stock is 0 and AVAILABLE iff it is not; an accepted explicit status passes through; every accepted status keeps the stock rule |
| InventoryService.ResolveStatusIdempotent | src/main/java/com/problemsolutionsltd/inventory/service/SolutionService.java:49-53 | a status the rule produced is accepted unchanged when submitted again |
| InventoryService.BlankDraftIsRefused | src/main/java/com/problemsolutionsltd/model/Solution.java:41-50 | a body with only a name (builder defaults: stock 0, status AVAILABLE) is refused by the rule |
| InventoryService.OverwriteIsFullReplace | src/main/java/com/problemsolutionsltd/inventory/service/SolutionService.java:89-96 | an update keeps only the old row's id: the result is the row a create of the same body would save under that id, whatever the old row held |
| InventoryService.SolutionService.constructor | src/main/java/com/problemsolutionsltd/inventory/service/SolutionService.java:16-20 | the service wraps a given table and identity counter, whatever rows it holds, provided each is stored under its own id below the counter |
| InventoryService.SolutionService.GetAllSolutions | src/main/java/com/problemsolutionsltd/inventory/service/SolutionService.java:24-27 | returns exactly the stored rows, each under its own id |
| InventoryService.SolutionService.GetSolutionById | src/main/java/com/problemsolutionsltd/inventory/service/SolutionService.java:56-64 | returns the stored row (with that id) iff the id is present, NotFound otherwise |
| InventoryService.SolutionService.CreateSolution | src/main/java/com/problemsolutionsltd/inventory/service/SolutionService.java:29-54 | AVAILABLE with zero stock is BadRequest with the table unchanged; otherwise the body with its resolved status is saved under a fresh id and nothing else changes; the written row keeps the stock rule, and so does the table if it did before |
| InventoryService.SolutionService.UpdateSolution | src/main/java/com/problemsolutionsltd/inventory/service/SolutionService.java:66-100 | a missing id is NotFound with the table unchanged, checked before the rule; a refused body is BadRequest with the table unchanged; otherwise only that id's row changes, to the old row with its seven mutable fields taken from the body and the resolved status; the written row keeps the stock rule, and so does the table if it did before |
| InventoryService.SolutionService.DeleteSolution | src/main/java/com/problemsolutionsltd/inventory/service/SolutionService.java:102-111 | a missing id is NotFound with the table unchanged; a present id is removed and every other row stays |
| InventoryRepository.FindItemsNeedingReorder | src/main/java/com/problemsolutionsltd/inventory/repository/SolutionRepository.java:13-14 | every reported row is a stored row with stock at or below its threshold, and every such stored row is reported |
| InventoryRepository.BoundaryIsInclusive | src/main/java/com/problemsolutionsltd/inventory/repository/SolutionRepository.java:13 | a row whose stock equals its threshold is reported; one unit above it is not |
| InventoryRepository.ReorderAfterSave | src/main/java/com/problemsolutionsltd/inventory/repository/SolutionRepository.java:13-14 | after a row is saved under its id, the report loses that id's old row and gains the new one exactly when it is due |
| InventoryRepository.ReorderAfterDelete | src/main/java/com/problemsolutionsltd/inventory/repository/SolutionRepository.java:13-14 | after a row is deleted, the report loses exactly that row |
| InventoryRepository.ReorderCount | src/main/java/com/problemsolutionsltd/inventory/repository/SolutionRepository.java:13-14 | the report has as many rows as there are stored ids due for reordering |
| ServiceScenarios.GetReturnsStoredItem | src/test/java/com/problemsolutionsltd/inventory/service/SolutionServiceTest.java:37-49 | a stored builder-default row (stock 0, AVAILABLE) is found by its id, returned as stored |
| ServiceScenarios.GetMissingIdIsNotFound | src/test/java/com/problemsolutionsltd/inventory/service/SolutionServiceTest.java:51-63 | looking up id 99 in an empty table is NotFound |
| ServiceScenarios.CreateRejectsAvailableWithoutStock | src/test/java/com/problemsolutionsltd/inventory/service/SolutionServiceTest.java:69-92 | AVAILABLE with no stock is BadRequest and the table stays empty |
| ServiceScenarios.CreateEmptyBox | src/test/java/com/problemsolutionsltd/inventory/service/SolutionServiceTest.java:94-109 | no status and no stock is saved as OUT_OF_STOCK |
| ServiceScenarios.CreateLaserAmmo | src/test/java/com/problemsolutionsltd/inventory/service/SolutionServiceTest.java:111-125 | no status and stock 50 is saved as AVAILABLE |
| ServiceScenarios.CreateKeepsExplicitStatus | src/test/java/com/problemsolutionsltd/inventory/service/SolutionServiceTest.java:127-141 | DISCONTINUED with stock 10 is saved as DISCONTINUED |
| ServiceScenarios.UpdateReplacesFields | src/test/java/com/problemsolutionsltd/inventory/service/SolutionServiceTest.java:148-165 | an update replaces name, stock and status of the stored row |
| ServiceScenarios.UpdateMissingIdIsNotFound | src/test/java/com/problemsolutionsltd/inventory/service/SolutionServiceTest.java:167-179 | updating id 99 in an empty table is NotFound, even with a body create would refuse, and nothing is written |
| ServiceScenarios.UpdateRejectsAvailableWithoutStock | src/test/java/com/problemsolutionsltd/inventory/service/SolutionServiceTest.java:181-196 | updating to AVAILABLE with stock 0 is BadRequest and the stored row keeps stock 5 and AVAILABLE |
| ServiceScenarios.UpdateTogglesToOutOfStock | src/test/java/com/problemsolutionsltd/inventory/service/SolutionServiceTest.java:198-213 | stock dropping to 0 with no status gives OUT_OF_STOCK |
| ServiceScenarios.UpdateTogglesToAvailable | src/test/java/com/problemsolutionsltd/inventory/service/SolutionServiceTest.java:215-230 | restocking to 10 with no status gives AVAILABLE |
| ServiceScenarios.DeleteStoredItem | src/test/java/com/problemsolutionsltd/inventory/service/SolutionServiceTest.java:236-246 | deleting a stored item succeeds and it is then NotFound |
| ServiceScenarios.DeleteMissingIdIsNotFound | src/test/java/com/problemsolutionsltd/inventory/service/SolutionServiceTest.java:248-259 | deleting id 99 in an empty table is NotFound and removes nothing |
| ServiceScenarios.LowStockItemIsReported | src/test/java/com/problemsolutionsltd/inventory/service/SolutionServiceTest.java:265-279 | an item with stock 1 and threshold 5 is in the reorder report, which holds exactly one row |

## Left out

- Persistence and HTTP plumbing: the controller's routing, JPA column metadata, and
  the `createdAt`/`updatedAt` timestamps the store sets.
- Bean validation (`@NotBlank`, `@NotNull`, `@Min`): framework checks before the
  service; the service itself accepts any value, and so does the model.
- Name uniqueness: a database constraint with no code in the service.
- Nulls in `name`: the service copies the name without inspecting it; it is a plain
  string here. `description`, `category` and `price` are optional values for the same reason.
- `price` is a `BigDecimal` in the source; no arithmetic is done on it, so it is an
  optional integer number of cents here.
- The record shape and builder defaults come from `model/Solution.java`; the
  `inventory.Entity.Solution` class the service imports is not part of this model.
- Atomicity: update (lookup, then save) and delete (existence check, then delete) are two
  separate repository calls with no transaction around them; the model makes each
  service call one atomic step, so interleavings such as a row deleted between lookup and
  save, or concurrent updates where the last write wins, are not captured.
- Entity objects are mutated in place in the source (`setStatus` on the incoming body,
  seven setters on the loaded row); the model updates immutable values, so aliasing
  between the returned object and the caller's body is not captured.
- A create body that already carries an id (which the store would merge into an
  existing row) is not modelled: the request body has no id.
- Identity overflow: ids are unbounded integers from a counter starting at 1.
- Order: `findAll` and `findItemsNeedingReorder` return lists in store order; the model
  returns sets of rows, so ordering is not captured.
- `getLowStockItems`: called by a test but not defined in the service; the test's
  expectation of the name "Low Ammo", which no code produces, is not modelled.
- The duplicate top-level `model`/`repository`/`service` packages and their test, and
  the exception message strings.
