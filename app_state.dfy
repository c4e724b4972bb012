/**
 * The product page's state and its handlers: sort headers, the add/edit
 * form, and the debounced search that mirrors the filter into the URL.
 * Each handler issues at most one HTTP request; the server's answer to it is
 * a parameter.
 */
module App {
  import opened Wrappers
  import opened JsText
  import opened ProductSort
  import opened QueryParams

  /** A form input's value: text typed into it, or a number or null loaded from a product. */
  datatype FormValue = Typed(text: string) | Number(n: int) | Null

  datatype Form = Form(id: FormValue, name: FormValue, description: FormValue, price: FormValue, quantity: FormValue)

  /** The form `resetForm` restores: all five inputs empty. */
  const BlankForm := Form(Typed(""), Typed(""), Typed(""), Typed(""), Typed(""))

  /**
   * The answer to a request: success with the response's rows (the rows of a
   * list or search; unused for add and edit), or failure with the response's
   * status (None when no response arrived) and its `detail` ("" when absent).
   */
  datatype Reply = Ok(data: seq<Item>) | Failed(status: Option<int>, detail: string)

  /** The HTTP request a handler sends. Bodies carry the form; the number conversions are not modelled. */
  datatype Request = FetchAll | SearchFor(q: string) | Create(body: Form) | Update(id: int, body: Form)

  const FetchFailedText := "Failed to fetch products"
  const SearchFailedText := "Search failed"
  const OperationFailedText := "Operation failed"
  const UpdatedText := "Product updated successfully"
  const CreatedText := "Product created successfully"

  function Flip(d: Direction): Direction {
    if d == Asc then Desc else Asc
  }

  /**
   * `handleSort(clicked)`: the sort field and direction after a header click.
   * The clicked field becomes the sort field; clicking the active field flips
   * the direction, any other field starts ascending.
   */
  function NextSort(field: Field, dir: Direction, clicked: Field): (r: (Field, Direction))
    ensures r.0 == clicked
    ensures clicked == field ==> r.1 != dir
    ensures clicked != field ==> r.1 == Asc
  {
    if clicked == field then (field, Flip(dir)) else (clicked, Asc)
  }

  /** Two clicks on the active header restore the original order. */
  lemma SortClickTwiceRestores(field: Field, dir: Direction)
    ensures NextSort(NextSort(field, dir, field).0, NextSort(field, dir, field).1, field) == (field, dir)
  {
  }

  function TextOrNull(v: Option<string>): FormValue {
    if v.Some? then Typed(v.value) else Null
  }

  function NumberOrNull(v: Option<int>): FormValue {
    if v.Some? then Number(v.value) else Null
  }

  /** The form `handleEdit(p)` fills in: the five fields of `p`. */
  function LoadedForm(p: Item): (form: Form)
    ensures form.id == Number(p.id) && form.price == Number(p.price)
    ensures form.name == TextOrNull(p.name) && form.description == TextOrNull(p.description)
    ensures form.quantity == NumberOrNull(p.quantity)
  {
    Form(Number(p.id), TextOrNull(p.name), TextOrNull(p.description), Number(p.price), NumberOrNull(p.quantity))
  }

  /** The value of the form input called `field`. */
  function Input(form: Form, field: Field): FormValue {
    match field
    case Id => form.id
    case Name => form.name
    case Description => form.description
    case Price => form.price
    case Quantity => form.quantity
  }

  /** `handleChange`: the input called `field` takes the typed text, and every other input keeps its value. */
  function WithInput(form: Form, field: Field, text: string): (r: Form)
    ensures Input(r, field) == Typed(text)
    ensures forall g :: g != field ==> Input(r, g) == Input(form, g)
  {
    match field
    case Id => form.(id := Typed(text))
    case Name => form.(name := Typed(text))
    case Description => form.(description := Typed(text))
    case Price => form.(price := Typed(text))
    case Quantity => form.(quantity := Typed(text))
  }

  /**
   * The request `handleSubmit` sends, as written: `if (editId)` treats an
   * editId of 0 like null, so editing the product with id 0 sends a create.
   */
  function SubmitRequestAsWritten(editId: Option<int>, form: Form): (r: Request)
    ensures r.Update? <==> editId.Some? && editId.value != 0
    ensures r.Update? ==> r.id == editId.value && r.body == form
    ensures r.Create? ==> r.body == form
  {
    if editId.Some? && editId.value != 0 then Update(editId.value, form) else Create(form)
  }

  /** Editing the product with id 0 and submitting sends a create, which the server refuses as a duplicate. */
  lemma SubmitAsWrittenCreatesForIdZero(p: Item)
    requires p.id == 0
    ensures SubmitRequestAsWritten(Some(p.id), LoadedForm(p)) == Create(LoadedForm(p))
  {
  }

  /** The request `handleSubmit` sends as intended: an update of the edited id exactly when one is set. */
  function SubmitRequest(editId: Option<int>, form: Form): (r: Request)
    ensures r.Update? <==> editId.Some?
    ensures r.Update? ==> r.id == editId.value && r.body == form
    ensures r.Create? ==> r.body == form
  {
    if editId.Some? then Update(editId.value, form) else Create(form)
  }

  /** `!String(value || "").trim()`: nothing but spaces. */
  predicate IsBlank(value: string)
    ensures IsBlank(value) <==> forall i :: 0 <= i < |value| ==> IsSpace(value[i])
  {
    Trim(value) == ""
  }

  /** The request `handleSearch(value)` sends: the full list for a blank value, otherwise a search for `value` as given. */
  function SearchRequest(value: string): (r: Request)
    ensures r == FetchAll <==> IsBlank(value)
    ensures r != FetchAll ==> r == SearchFor(value)
  {
    if IsBlank(value) then FetchAll else SearchFor(value)
  }

  /** What the debounce callback does: the value it writes to `q` ("" removes it) and the request it sends. */
  datatype Debounced = Debounced(q: string, request: Request)

  /**
   * The debounce callback on `filter`: the trimmed filter goes into `q`; an
   * empty one removes `q` and loads everything, any other is searched for.
   * A search is never sent for a blank filter, nor with spaces around it.
   */
  function DebounceStep(filter: string): (d: Debounced)
    ensures d.q == Trim(filter)
    ensures d.request == FetchAll <==> IsBlank(filter)
    ensures d.request != FetchAll ==> d.request == SearchFor(d.q) && d.q != ""
    ensures d.request != FetchAll ==> !IsSpace(d.q[0]) && !IsSpace(d.q[|d.q| - 1])
  {
    var v := Trim(filter);
    if v != "" then Debounced(v, SearchRequest(v)) else Debounced("", FetchAll)
  }

  /** `filteredProducts` and friends: the component's state. */
  class AppState {
    var products: seq<Item>
    var form: Form
    var editId: Option<int>
    var message: string
    var error: string
    var filter: string
    var sortField: Field
    var sortDirection: Direction

    constructor ()
      ensures products == [] && form == BlankForm && editId == None
      ensures message == "" && error == "" && filter == ""
      ensures sortField == Id && sortDirection == Asc
    {
      products, form, editId := [], BlankForm, None;
      message, error, filter := "", "", "";
      sortField, sortDirection := Id, Asc;
    }

    /** `filteredProducts`: the rows as the table shows them, a sorted copy of `products`. */
    function View(): (v: seq<Item>)
      reads this
      ensures multiset(v) == multiset(products)
      ensures Ordered(sortField, sortDirection, v)
    {
      SortedView(products, sortField, sortDirection)
    }

    /** The search box's `onChange`: the filter holds what was typed, untrimmed. */
    method HandleFilterInput(text: string)
      modifies this`filter
      ensures filter == text
    {
      filter := text;
    }

    method HandleSort(field: Field)
      modifies this`sortField, this`sortDirection
      ensures (sortField, sortDirection) == NextSort(old(sortField), old(sortDirection), field)
    {
      if sortField == field {
        sortDirection := if sortDirection == Asc then Desc else Asc;
      } else {
        sortField := field;
        sortDirection := Asc;
      }
    }

    method HandleChange(field: Field, text: string)
      modifies this`form
      ensures form == WithInput(old(form), field, text)
    {
      form := WithInput(form, field, text);
    }

    method ResetForm()
      modifies this`form, this`editId
      ensures form == BlankForm && editId == None
    {
      form := BlankForm;
      editId := None;
    }

    method HandleEdit(p: Item)
      modifies this`form, this`editId, this`message, this`error
      ensures form == LoadedForm(p) && editId == Some(p.id)
      ensures message == "" && error == ""
    {
      form := LoadedForm(p);
      editId := Some(p.id);
      message := "";
      error := "";
    }

    /** `fetchProducts`: on success the list is replaced and the error cleared; on failure only the error is set. */
    method FetchProducts(reply: Reply)
      modifies this`products, this`error
      ensures reply.Ok? ==> products == reply.data && error == ""
      ensures reply.Failed? ==> products == old(products) && error == FetchFailedText
    {
      if reply.Ok? {
        products := reply.data;
        error := "";
      } else {
        error := FetchFailedText;
      }
    }

    /**
     * `handleSearch(value)`: a blank value loads the full list instead; a
     * search that answers 404 empties the list, any other failure sets the
     * error and keeps the list.
     */
    method HandleSearch(value: string, reply: Reply) returns (request: Request)
      modifies this`products, this`error
      ensures request == SearchRequest(value)
      ensures request == FetchAll && reply.Ok? ==> products == reply.data && error == ""
      ensures request == FetchAll && reply.Failed? ==> products == old(products) && error == FetchFailedText
      ensures request != FetchAll && reply.Ok? ==> products == reply.data && error == ""
      ensures request != FetchAll && reply.Failed? && reply.status == Some(404) ==> products == [] && error == old(error)
      ensures request != FetchAll && reply.Failed? && reply.status != Some(404) ==>
        products == old(products) && error == SearchFailedText
    {
      if IsBlank(value) {
        FetchProducts(reply);
        return FetchAll;
      }
      request := SearchFor(value);
      match reply
      case Ok(data) =>
        products := data;
        error := "";
      case Failed(status, _) =>
        if status == Some(404) {
          products := [];
        } else {
          error := SearchFailedText;
        }
    }

    /** The debounce timer's callback, once typing has paused: update `q`, then search or load everything. */
    method DebounceFired(browser: Browser, reply: Reply) returns (request: Request)
      modifies this`products, this`error, browser
      ensures browser.params == Updated(old(browser.params), "q", DebounceStep(filter).q)
      ensures browser.history == old(browser.history) + [UrlOf(browser.pathname, browser.params)]
      ensures browser.pathname == old(browser.pathname)
      ensures request == DebounceStep(filter).request
      ensures reply.Ok? ==> products == reply.data && error == ""
      ensures request == FetchAll && reply.Failed? ==> products == old(products) && error == FetchFailedText
      ensures request != FetchAll && reply.Failed? && reply.status == Some(404) ==> products == [] && error == old(error)
      ensures request != FetchAll && reply.Failed? && reply.status != Some(404) ==>
        products == old(products) && error == SearchFailedText
    {
      var v := Trim(filter);
      if v != "" {
        browser.SetQueryParam("q", v);
        request := HandleSearch(v, reply);
      } else {
        browser.SetQueryParam("q", "");
        FetchProducts(reply);
        request := FetchAll;
      }
    }

    /**
     * `handleSubmit`: send an update or a create for the form; on success show
     * the message, reset the form and reload the list, otherwise show the
     * server's detail or a generic error and keep the form.
     */
    method HandleSubmit(submitReply: Reply, fetchReply: Reply) returns (request: Request)
      modifies this`form, this`editId, this`message, this`error, this`products
      ensures request == SubmitRequest(old(editId), old(form))
      ensures submitReply.Ok? ==> form == BlankForm && editId == None
      ensures submitReply.Ok? ==> message == if request.Update? then UpdatedText else CreatedText
      ensures submitReply.Ok? && fetchReply.Ok? ==> products == fetchReply.data && error == ""
      ensures submitReply.Ok? && fetchReply.Failed? ==> products == old(products) && error == FetchFailedText
      ensures submitReply.Failed? ==> form == old(form) && editId == old(editId) && products == old(products)
      ensures submitReply.Failed? ==> message == ""
      ensures submitReply.Failed? ==>
        error == if submitReply.detail != "" then submitReply.detail else OperationFailedText
    {
      message := "";
      error := "";
      request := SubmitRequest(editId, form);
      if submitReply.Failed? {
        error := if submitReply.detail != "" then submitReply.detail else OperationFailedText;
        return;
      }
      message := if request.Update? then UpdatedText else CreatedText;
      ResetForm();
      FetchProducts(fetchReply);
    }
  }

  /** Editing a product and submitting sends an update of that product's id, with its own fields. */
  method EditThenSubmit(p: Item, submitReply: Reply, fetchReply: Reply) returns (request: Request)
    ensures request == Update(p.id, LoadedForm(p))
  {
    var app := new AppState();
    app.HandleEdit(p);
    request := app.HandleSubmit(submitReply, fetchReply);
  }

  /** Clicking a header twice on a fresh page sorts by that field, and the second click reverses the first. */
  method SortHeaderTwice(field: Field) returns (first: Direction, second: Direction)
    ensures field == Id ==> first == Desc && second == Asc
    ensures field != Id ==> first == Asc && second == Desc
  {
    var app := new AppState();
    app.HandleSort(field);
    first := app.sortDirection;
    app.HandleSort(field);
    second := app.sortDirection;
  }
}
