/** The `PUT /products/edit/{id}` and `GET /products/search?q=` endpoints. */
module EditSearch {
  import opened Wrappers
  import opened ProductsDb
  import Decimal
  import AddDelete

  const ProductNotFoundDetail := "Product not found"
  const UpdatedMessage := "Product updated successfully"
  /** What the server answers when a handler raises an exception that is not an HTTPException. */
  const InternalErrorDetail := "Internal Server Error"

  /**
   * `edit_product(id, body)` on table `t`. The UPDATE sets name, description
   * and price of row `id` from the body and touches nothing else; the body's
   * own id and quantity are never read. The body is optional: an existing id
   * with no body reaches `product.name` on None, and the server answers 500.
   */
  function Edit(t: Table, id: int, body: Option<Product>): (out: Outcome)
    ensures out.reply.Ok? <==> id in t && body.Some?
    ensures id !in t ==> out.reply == HttpError(404, ProductNotFoundDetail) && out.table == t
    ensures id in t && body.None? ==> out.reply == HttpError(500, InternalErrorDetail) && out.table == t
    ensures out.reply.Ok? ==> out.reply == Ok(UpdatedMessage) && out.table.Keys == t.Keys
    ensures out.reply.Ok? ==>
      && out.table[id].name == body.value.name
      && out.table[id].description == body.value.description
      && out.table[id].price == body.value.price
      && out.table[id].quantity == t[id].quantity
    ensures forall other :: other != id ==> SameRow(t, out.table, other)
  {
    if id !in t then Outcome(HttpError(404, ProductNotFoundDetail), t)
    else if body.None? then Outcome(HttpError(500, InternalErrorDetail), t)
    else
      var b := body.value;
      Outcome(Ok(UpdatedMessage), t[id := t[id].(name := b.name, description := b.description, price := b.price)])
  }

  method EditProduct(db: Database, id: int, body: Option<Product>) returns (reply: Reply)
    modifies db
    ensures Outcome(reply, db.products) == Edit(old(db.products), id, body)
  {
    // SELECT * FROM products WHERE id = id, then fetchone()
    if id !in db.products {
      return HttpError(404, ProductNotFoundDetail);
    }
    if body.None? {
      return HttpError(500, InternalErrorDetail);
    }
    var b := body.value;
    var row := db.products[id];
    db.products := db.products[id := Row(b.name, b.description, b.price, row.quantity)];
    reply := Ok(UpdatedMessage);
  }

  /** The path id decides which row changes: the body's id and quantity make no difference. */
  lemma EditIgnoresBodyIdAndQuantity(t: Table, id: int, b: Product, otherId: int, otherQuantity: int)
    ensures Edit(t, id, Some(b)) == Edit(t, id, Some(b.(id := otherId, quantity := otherQuantity)))
  {
  }

  /** Repeating an edit changes nothing more. */
  lemma EditIdempotent(t: Table, id: int, body: Option<Product>)
    ensures Edit(Edit(t, id, body).table, id, body).table == Edit(t, id, body).table
  {
  }

  /** Editing a freshly added product keeps the quantity the add left unset. */
  lemma EditAfterAddKeepsQuantityUnset(t: Table, p: Product, b: Product)
    requires p.id !in t
    ensures Edit(AddDelete.Add(t, p).table, p.id, Some(b)).table[p.id] == Row(b.name, b.description, b.price, None)
  {
  }

  const QueryRequiredDetail := "Search query 'q' is required"

  function NoMatchDetail(q: string): string {
    "No products found for query '" + q + "'"
  }

  /** The answer of a search: the matching rows, keyed by id, or an HTTPException. */
  datatype SearchReply = Found(rows: Table) | SearchFailed(status: int, detail: string)

  /** `q` occurs in `text` starting at position `i`. */
  predicate OccursAt(text: string, q: string, i: int) {
    0 <= i <= |text| - |q| && text[i..i + |q|] == q
  }

  /** `text LIKE '%q%'`: `q` occurs in `text` as a contiguous piece. */
  predicate Contains(text: string, q: string) {
    exists i | 0 <= i <= |text| - |q| :: OccursAt(text, q, i)
  }

  /**
   * The WHERE clause of the search. A query of digits also matches the row
   * whose id is `int(q)`; any other query is looked for in name and
   * description only.
   */
  predicate Matches(q: string, id: int, row: Row)
    ensures Decimal.IsDigits(q) && Decimal.ParseInt(q) == Some(id) ==> Matches(q, id, row)
    ensures q <= row.name || q <= row.description ==> Matches(q, id, row)
    ensures Matches(q, id, row) && |q| > |row.name| && |q| > |row.description| ==>
      Decimal.IsDigits(q) && Decimal.ParseInt(q) == Some(id)
  {
    assert q <= row.name ==> OccursAt(row.name, q, 0);
    assert q <= row.description ==> OccursAt(row.description, q, 0);
    if Decimal.IsDigits(q) then
      id == Decimal.DigitsValue(q) || Contains(row.name, q) || Contains(row.description, q)
    else
      Contains(row.name, q) || Contains(row.description, q)
  }

  /** `search_products(q)` on table `t`; a missing `q` parameter is None. */
  function Search(t: Table, q: Option<string>): (r: SearchReply)
    ensures r == SearchFailed(400, QueryRequiredDetail) <==> q.None? || q.value == ""
    ensures q.Some? && q.value != "" ==>
      (r.Found? <==> exists id :: id in t && Matches(q.value, id, t[id]))
    ensures q.Some? && q.value != "" && r.SearchFailed? ==> r == SearchFailed(404, NoMatchDetail(q.value))
    ensures r.Found? ==> r.rows != map[]
    ensures r.Found? ==> forall id :: id in r.rows <==> id in t && Matches(q.value, id, t[id])
    ensures r.Found? ==> forall id :: id in r.rows ==> r.rows[id] == t[id]
  {
    if q.None? || q.value == "" then SearchFailed(400, QueryRequiredDetail)
    else
      var rows := map id | id in t && Matches(q.value, id, t[id]) :: t[id];
      if rows == map[] then
        assert forall id :: id in t ==> !Matches(q.value, id, t[id]) by {
          forall id | id in t ensures !Matches(q.value, id, t[id]) {
            assert id !in rows;
          }
        }
        SearchFailed(404, NoMatchDetail(q.value))
      else Found(rows)
  }

  /** A query that is not all digits never consults the id. */
  lemma TextQueryIgnoresId(q: string, a: int, b: int, row: Row)
    requires !Decimal.IsDigits(q)
    ensures Matches(q, a, row) == Matches(q, b, row)
  {
  }

  /** Searching for an id written with any number of leading zeros finds that product. */
  lemma {:induction false} PaddedIdQueryFindsProduct(t: Table, zeros: string, id: nat)
    requires forall i :: 0 <= i < |zeros| ==> zeros[i] == '0'
    requires id in t
    ensures Search(t, Some(zeros + Decimal.NatToString(id))).Found?
    ensures id in Search(t, Some(zeros + Decimal.NatToString(id))).rows
  {
    var q := zeros + Decimal.NatToString(id);
    Decimal.LeadingZerosIgnored(zeros, Decimal.NatToString(id));
    assert Matches(q, id, t[id]);
  }

  /** A product just added is found by searching for its (non-empty) name. */
  lemma {:induction false} AddedProductFoundByName(t: Table, p: Product)
    requires p.id !in t && p.name != ""
    ensures Search(AddDelete.Add(t, p).table, Some(p.name)).Found?
    ensures p.id in Search(AddDelete.Add(t, p).table, Some(p.name)).rows
  {
    var u := AddDelete.Add(t, p).table;
    assert OccursAt(u[p.id].name, p.name, 0);
    assert Matches(p.name, p.id, u[p.id]);
  }

  /** A deleted product is never among the results of any search. */
  lemma DeletedProductNotFound(t: Table, id: int, q: Option<string>)
    ensures Search(AddDelete.Delete(t, id).table, q).Found? ==> id !in Search(AddDelete.Delete(t, id).table, q).rows
  {
  }
}
