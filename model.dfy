/** The values the inventory works with: the Solution row, the request body that
    creates or replaces one, the two enumerations, and the error kinds the
    service reports instead of throwing. */
module Model {

  /** Java's 32-bit `int`, the type of the stock and threshold columns. */
  newtype Int32 = x: int | -0x8000_0000 <= x < 0x8000_0000

  datatype Option<+T> = None | Some(value: T)

  /** Lifecycle of an item. */
  datatype Status = Available | OutOfStock | Discontinued | Recalled

  datatype Category = Lethal | NonLethal | Medical | Chaos | Logistics | TopSecret | Intimidation

  /** The two ways a service call fails: HTTP 404 and HTTP 400. */
  datatype Error = NotFound | BadRequest

  datatype Result<+T> = Ok(value: T) | Err(error: Error)

  /** Reorder threshold a new item gets when none is given. */
  const DefaultReorderThreshold: Int32 := 10

  /** A row of the `solutions` table. Every row the service writes has a status.
      Prices are whole cents: 500.00 is 50000. */
  datatype Solution = Solution(
    id: int,
    name: string,
    description: Option<string>,
    category: Option<Category>,
    stockQuantity: Int32,
    reorderThreshold: Int32,
    price: Option<int>,
    status: Status)

  /** A request body for create or update: it carries no id, and its status may be absent. */
  datatype Draft = Draft(
    name: string,
    description: Option<string>,
    category: Option<Category>,
    stockQuantity: Int32,
    reorderThreshold: Int32,
    price: Option<int>,
    status: Option<Status>)

  /** The body a builder produces when only the name is set: no stock, the
      default threshold, status AVAILABLE, and the nullable fields left null. */
  function Blank(name: string): Draft
  {
    Draft(name, None, None, 0, DefaultReorderThreshold, None, Some(Available))
  }

  /** The rule every write keeps: an item with no stock is never AVAILABLE. */
  predicate StockConsistent(status: Status, stock: Int32)
  {
    !(status == Available && stock == 0)
  }
}
