/**
 * The `products` table that the backend's endpoints read and change, and the
 * replies they send. The table's primary key is the product id, so the table
 * is a map from id to the rest of the row.
 */
module ProductsDb {
  import opened Wrappers

  /**
   * The JSON body of an add or edit request. Prices are whole cents here;
   * the source sends and stores them as floating-point numbers.
   */
  datatype Product = Product(id: int, name: string, description: string, price: int, quantity: int)

  /** A row of the table without its key. A quantity of None is a column the INSERT left unset. */
  datatype Row = Row(name: string, description: string, price: int, quantity: Option<int>)

  type Table = map<int, Row>

  /** What an endpoint answers: a success message, or an HTTPException's status and detail. */
  datatype Reply = Ok(message: string) | HttpError(status: int, detail: string)

  /** The reply of a changing endpoint together with the table it leaves behind. */
  datatype Outcome = Outcome(reply: Reply, table: Table)

  /** Row `id` is the same in both tables: absent from both, or present in both with equal contents. */
  predicate SameRow(t: Table, u: Table, id: int) {
    (id in t <==> id in u) && (id in t ==> t[id] == u[id])
  }

  /** The database the endpoints share: one `products` table that they change in place. */
  class Database {
    var products: Table

    constructor (initial: Table)
      ensures products == initial
    {
      products := initial;
    }
  }
}
