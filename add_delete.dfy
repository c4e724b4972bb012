/** The `POST /products/add` and `DELETE /products/delete/{product_id}` endpoints. */
module AddDelete {
  import opened Wrappers
  import opened ProductsDb
  import Decimal

  const DuplicateIdDetail := "Product with this ID already exists"
  const AddedMessage := "Product added successfully"
  const DeletedMessage := "Product deleted successfully"

  /**
   * The row an accepted add stores for `p`. The INSERT names the columns id,
   * name, description and price only, so the request's quantity is dropped.
   */
  function InsertedRow(p: Product): (row: Row)
    ensures row.quantity.None?
    ensures row.name == p.name && row.description == p.description && row.price == p.price
  {
    Row(p.name, p.description, p.price, None)
  }

  /** `add_product(p)` on table `t`: a duplicate id is refused, a fresh one gets exactly one new row. */
  function Add(t: Table, p: Product): (out: Outcome)
    ensures out.reply.HttpError? <==> p.id in t
    ensures p.id in t ==> out.reply == HttpError(400, DuplicateIdDetail) && out.table == t
    ensures p.id !in t ==> out.reply == Ok(AddedMessage)
    ensures p.id !in t ==> p.id in out.table && out.table[p.id] == InsertedRow(p)
    ensures p.id !in t ==> out.table.Keys == t.Keys + {p.id} && |out.table| == |t| + 1
    ensures forall id :: id != p.id ==> SameRow(t, out.table, id)
  {
    if p.id in t then Outcome(HttpError(400, DuplicateIdDetail), t)
    else Outcome(Ok(AddedMessage), t[p.id := InsertedRow(p)])
  }

  method AddProduct(db: Database, p: Product) returns (reply: Reply)
    modifies db
    ensures Outcome(reply, db.products) == Add(old(db.products), p)
  {
    // SELECT * FROM products WHERE id = p.id, then fetchone()
    if p.id in db.products {
      return HttpError(400, DuplicateIdDetail);
    }
    db.products := db.products[p.id := InsertedRow(p)];
    reply := Ok(AddedMessage);
  }

  const MissingIdPrefix := "Product with this ID:"
  const MissingIdSuffix := " doesn't exists."

  /**
   * The 400 detail for deleting an absent id, as the source writes it: the
   * literal lacks the `f` prefix of a Python format string, so it reads
   * `{product_id}` whatever the id was.
   */
  function MissingIdDetailAsWritten(id: int): (detail: string)
    ensures detail == MissingIdPrefix + "{product_id}" + MissingIdSuffix
  {
    "Product with this ID:{product_id} doesn't exists."
  }

  /** The as-written detail cannot tell two ids apart. */
  lemma MissingIdDetailAsWrittenIgnoresId(a: int, b: int)
    ensures MissingIdDetailAsWritten(a) == MissingIdDetailAsWritten(b)
  {
  }

  /** The detail as intended: the requested id, in decimal, between the prefix and the suffix. */
  function MissingIdDetail(id: int): (detail: string)
    ensures |MissingIdPrefix| + |MissingIdSuffix| < |detail|
    ensures detail[..|MissingIdPrefix|] == MissingIdPrefix
    ensures detail[|detail| - |MissingIdSuffix|..] == MissingIdSuffix
    ensures Decimal.ParseInt(detail[|MissingIdPrefix|..|detail| - |MissingIdSuffix|]) == Some(id)
    ensures detail == MissingIdPrefix + Decimal.IntToString(id) + MissingIdSuffix
  {
    var digits := Decimal.IntToString(id);
    var detail := MissingIdPrefix + digits + MissingIdSuffix;
    assert detail[|MissingIdPrefix|..|detail| - |MissingIdSuffix|] == digits;
    detail
  }

  /** Unlike the as-written detail, the intended one names the id: different ids give different details. */
  lemma MissingIdDetailNamesId(a: int, b: int)
    requires a != b
    ensures MissingIdDetail(a) != MissingIdDetail(b)
  {
  }

  /** `delete_product(id)` on table `t`: afterwards no row has that id; removing nothing is an error. */
  function Delete(t: Table, id: int): (out: Outcome)
    ensures id !in out.table
    ensures out.reply.Ok? <==> id in t
    ensures id in t ==> out.reply == Ok(DeletedMessage) && out.table.Keys == t.Keys - {id} && |out.table| == |t| - 1
    ensures id !in t ==> out.reply == HttpError(400, MissingIdDetail(id)) && out.table == t
    ensures forall other :: other != id ==> SameRow(t, out.table, other)
  {
    // DELETE FROM products WHERE id = id; cursor.rowcount is 1 when the key was present, else 0
    if id in t then Outcome(Ok(DeletedMessage), t - {id})
    else Outcome(HttpError(400, MissingIdDetail(id)), t)
  }

  method DeleteProduct(db: Database, id: int) returns (reply: Reply)
    modifies db
    ensures Outcome(reply, db.products) == Delete(old(db.products), id)
  {
    var rowcount := if id in db.products then 1 else 0;
    db.products := db.products - {id};
    if rowcount == 0 {
      return HttpError(400, MissingIdDetail(id));
    }
    reply := Ok(DeletedMessage);
  }

  /** Deleting a product just added restores the table. */
  lemma AddThenDeleteRestores(t: Table, p: Product)
    requires p.id !in t
    ensures Delete(Add(t, p).table, p.id) == Outcome(Ok(DeletedMessage), t)
  {
    assert Add(t, p).table - {p.id} == t;
  }

  /** Adding an id a second time is refused and changes nothing. */
  lemma AddTwiceRefused(t: Table, p: Product, q: Product)
    requires p.id !in t && q.id == p.id
    ensures Add(Add(t, p).table, q) == Outcome(HttpError(400, DuplicateIdDetail), Add(t, p).table)
  {
  }

  /** A second delete of the same id is refused and changes nothing. */
  lemma DeleteTwiceRefused(t: Table, id: int)
    ensures Delete(Delete(t, id).table, id) == Outcome(HttpError(400, MissingIdDetail(id)), Delete(t, id).table)
  {
  }
}
