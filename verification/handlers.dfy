/** The live request handlers of app.js: list, get, agenda, create, update
    and delete, behind the query-parameter middleware that runs for every
    request. Each handler is a function from the table and the request to
    the response and the table after the request. */
module Handlers {
  import opened Common
  import opened Validators
  import opened Storage
  import opened Gate

  /** What the handler sends back. */
  datatype Response =
    | Text(code: nat, message: string)  // plain-text body with its status code
    | Rows(rows: seq<Todo>)             // 200 with a JSON array of todos
    | One(row: Todo)                    // 200 with a single JSON todo
    | NoReply                           // the handler's promise rejects; nothing is sent

  datatype Outcome = Outcome(response: Response, table: Table)

  const InvalidData := Text(400, "Invalid Data")
  const NotFound := Text(404, "Todo not found")
  const Added := Text(200, "Todo Successfully Added")
  const Deleted := Text(200, "Todo Deleted")
  const ServerError := Text(500, "Internal Server Error")

  /** The fields the create handler destructures from the request body. */
  datatype NewTodo = NewTodo(id: Option<int>, todo: Option<string>, priority: Option<string>,
                             status: Option<string>, category: Option<string>,
                             dueDate: Option<string>)

  predicate DistinctKeys(b: seq<(string, string)>) {
    forall i, j :: 0 <= i < j < |b| ==> b[i].0 != b[j].0
  }

  /** A JSON request body: its own keys in order, each with its value. */
  type Body = b: seq<(string, string)> | DistinctKeys(b) witness []

  /** The live routes: GET /todos/, GET /todos/:todoId/, GET /agenda/,
      POST /todos/, PUT /todos/:todoId/ and DELETE /todos/:todoId/. */
  datatype Route =
    | GetTodos
    | GetTodoById(todoId: int)
    | GetAgenda
    | PostTodo(fields: NewTodo)
    | PutTodo(todoId: int, body: Body)
    | DeleteTodoById(todoId: int)

  datatype Request = Request(query: Query, route: Route)

  /** The value of a field of a row. */
  function FieldValue(row: Todo, f: Field): string {
    match f
    case TodoText => row.todo
    case Status => row.status
    case Priority => row.priority
    case Category => row.category
    case DueDate => row.dueDate
  }

  /** A row whose enumerated fields hold legal values and whose due date has
      the date shape (what the create handler admits). */
  predicate RowValid(row: Todo) {
    && IsValidStatus(row.status) && IsValidPriority(row.priority)
    && IsValidCategory(row.category) && IsValidDateFormat(row.dueDate)
  }

  predicate RowsValid(t: Table) {
    forall i :: 0 <= i < |t| ==> RowValid(t[i])
  }

  // ---------------------------------------------------------------------
  // GET /todos/
  // ---------------------------------------------------------------------

  /** No truthy filter and no truthy `search_q`. */
  predicate NoFilters(q: Query) {
    !Truthy(q.status) && !Truthy(q.priority) && !Truthy(q.category)
    && !Truthy(q.date) && !Truthy(q.searchQ)
  }

  /** What a listed row must satisfy: every truthy filter equals the row's
      field and a truthy `search_q` occurs in the row's text. */
  ghost predicate MatchesQuery(q: Query, row: Todo) {
    && (Truthy(q.status) ==> row.status == q.status.value)
    && (Truthy(q.priority) ==> row.priority == q.priority.value)
    && (Truthy(q.category) ==> row.category == q.category.value)
    && (Truthy(q.date) ==> row.dueDate == q.date.value)
    && (Truthy(q.searchQ) ==> exists i :: OccursAt(row.todo, q.searchQ.value, i))
  }

  /** The conjunct a parameter contributes: none when it is absent or empty. */
  function Conjunct(p: Option<string>, c: string -> Condition): seq<Condition> {
    if Truthy(p) then [c(p.value)] else []
  }

  /** The conjuncts the list handler appends to `WHERE 1 = 1`, one per
      truthy parameter. */
  function ListConditions(q: Query): (cs: seq<Condition>)
    ensures cs == [] <==> NoFilters(q)
    ensures forall row :: AllHold(cs, row) <==> MatchesQuery(q, row)
  {
    var c1 := Conjunct(q.status, v => Equals("status", v));
    var c2 := Conjunct(q.priority, v => Equals("priority", v));
    var c3 := Conjunct(q.category, v => Equals("category", v));
    var c4 := Conjunct(q.date, v => Equals("due_date", v));
    var c5 := Conjunct(q.searchQ, v => Like("todo", v));
    var cs := c1 + c2 + c3 + c4 + c5;
    assert forall row :: AllHold(cs, row) <==> MatchesQuery(q, row) by {
      forall row ensures AllHold(cs, row) <==> MatchesQuery(q, row) {
        AllHoldConcat(c1 + c2 + c3 + c4, c5, row);
        AllHoldConcat(c1 + c2 + c3, c4, row);
        AllHoldConcat(c1 + c2, c3, row);
        AllHoldConcat(c1, c2, row);
        if Truthy(q.searchQ) {
          ContainsIsSubstring(row.todo, q.searchQ.value);
          assert AllHold(c5, row) <==> Holds(c5[0], row);
        }
        if Truthy(q.status) { assert AllHold(c1, row) <==> Holds(c1[0], row); }
        if Truthy(q.priority) { assert AllHold(c2, row) <==> Holds(c2[0], row); }
        if Truthy(q.category) { assert AllHold(c3, row) <==> Holds(c3[0], row); }
        if Truthy(q.date) { assert AllHold(c4, row) <==> Holds(c4[0], row); }
      }
    }
    cs
  }

  /** `GET /todos/`: exactly the rows that match every supplied filter, in
      the model's row order; the whole table when nothing is supplied. */
  function ListTodos(t: Table, q: Query): (r: Response)
    ensures r.Rows?
    ensures forall x :: x in r.rows <==> x in t && MatchesQuery(q, x)
    ensures multiset(r.rows) <= multiset(t)
    ensures NoFilters(q) ==> r.rows == t
  {
    Rows(Select(t, ListConditions(q)))
  }

  // ---------------------------------------------------------------------
  // GET /todos/:todoId/ and GET /agenda/
  // ---------------------------------------------------------------------

  /** `GET /todos/:todoId/`: the row with that id, or 404. */
  function GetTodo(t: Table, id: int): (r: Response)
    ensures r.One? <==> HasId(t, id)
    ensures r.One? ==> r.row in t && r.row.id == id
    ensures !r.One? ==> r == NotFound
  {
    match FindById(t, id)
    case Some(row) => One(row)
    case None => NotFound
  }

  /** `GET /agenda/`: 400 unless `date` has the date shape (an absent date is
      tested as the text "undefined" and fails); otherwise exactly the rows
      due on that date. */
  function Agenda(t: Table, date: Option<string>): (r: Response)
    ensures !(date.Some? && IsValidDateFormat(date.value)) ==> r == Text(400, "Invalid Due Date")
    ensures date.Some? && IsValidDateFormat(date.value) ==>
      && r.Rows?
      && (forall x :: x in r.rows <==> x in t && x.dueDate == date.value)
      && multiset(r.rows) <= multiset(t)
  {
    if !IsValidDateFormat(JsString(date)) then Text(400, "Invalid Due Date")
    else
      var cs := [Equals("due_date", JsString(date))];
      assert forall x :: AllHold(cs, x) <==> x.dueDate == JsString(date) by {
        forall x ensures AllHold(cs, x) <==> x.dueDate == JsString(date) {
          if x.dueDate == JsString(date) { assert Holds(cs[0], x); }
        }
      }
      Rows(Select(t, cs))
  }

  // ---------------------------------------------------------------------
  // POST /todos/
  // ---------------------------------------------------------------------

  /** `todo && priority && status && category && dueDate` */
  predicate AllPresent(b: NewTodo) {
    Truthy(b.todo) && Truthy(b.priority) && Truthy(b.status) && Truthy(b.category) && Truthy(b.dueDate)
  }

  /** The create handler's validations, in the order it makes them. */
  function CreateChecks(b: NewTodo): seq<Check> {
    [(Status, b.status), (Priority, b.priority), (Category, b.category), (DueDate, b.dueDate)]
  }

  /** The row an accepted create inserts. */
  function NewRow(id: int, b: NewTodo): Todo
    requires AllPresent(b)
  {
    Todo(id, b.todo.value, b.priority.value, b.status.value, b.category.value, b.dueDate.value)
  }

  /** `POST /todos/`: 400 "Invalid Data" when a field is missing or empty,
      then the first of status, priority, category, due date that fails
      its validator gives that field's 400; `id` is never validated. A
      missing or already stored id makes the INSERT fail, answered 500. The
      table changes only on success, and then by exactly the new row. */
  function Create(t: Table, b: NewTodo): (r: Outcome)
    ensures !AllPresent(b) ==> r == Outcome(InvalidData, t)
    ensures AllPresent(b) && !IsValidStatus(b.status.value) ==>
      r == Outcome(Text(400, "Invalid Todo Status"), t)
    ensures AllPresent(b) && IsValidStatus(b.status.value) && !IsValidPriority(b.priority.value) ==>
      r == Outcome(Text(400, "Invalid Todo Priority"), t)
    ensures AllPresent(b) && IsValidStatus(b.status.value) && IsValidPriority(b.priority.value)
            && !IsValidCategory(b.category.value) ==>
      r == Outcome(Text(400, "Invalid Todo Category"), t)
    ensures AllPresent(b) && IsValidStatus(b.status.value) && IsValidPriority(b.priority.value)
            && IsValidCategory(b.category.value) && !IsValidDateFormat(b.dueDate.value) ==>
      r == Outcome(Text(400, "Invalid Due Date"), t)
    ensures AllPresent(b) && RowValid(NewRow(0, b)) && b.id.None? ==> r == Outcome(ServerError, t)
    ensures AllPresent(b) && b.id.Some? && RowValid(NewRow(b.id.value, b)) && HasId(t, b.id.value) ==>
      r == Outcome(ServerError, t)
    ensures r.response == Added <==>
      AllPresent(b) && b.id.Some? && RowValid(NewRow(b.id.value, b)) && !HasId(t, b.id.value)
    ensures r.response == Added ==> r.table == t + [NewRow(b.id.value, b)]
    ensures r.response != Added ==> r.table == t
  {
    if !AllPresent(b) then Outcome(InvalidData, t)
    else
      var cs := CreateChecks(b);
      assert |cs| == 4 && cs[0] == (Status, b.status) && cs[1] == (Priority, b.priority)
             && cs[2] == (Category, b.category) && cs[3] == (DueDate, b.dueDate);
      assert forall i :: 0 <= i < 4 ==> (Fails(cs[i]) <==> !Accepts(cs[i].0, cs[i].1.value));
      match FirstFailure(cs)
      case Some(f) => Outcome(Text(400, InvalidMessage(f)), t)
      case None =>
        if b.id.None? then Outcome(ServerError, t)
        else
          match Insert(t, NewRow(b.id.value, b))
          case None => Outcome(ServerError, t)
          case Some(t') => Outcome(Added, t')
  }

  // ---------------------------------------------------------------------
  // PUT /todos/:todoId/
  // ---------------------------------------------------------------------

  /** The column an update of each field should write. */
  function ColumnOf(f: Field): (c: string)
    ensures c in TextColumns
    ensures forall row :: Column(row, c) == Some(FieldValue(row, f))
  {
    match f
    case TodoText => "todo"
    case Status => "status"
    case Priority => "priority"
    case Category => "category"
    case DueDate => "due_date"
  }

  /** The body has exactly one key, and that key names field `f`. */
  predicate Resolves(body: Body, f: Field) {
    |body| == 1 && FieldOfKey(body[0].0) == Some(f)
  }

  /** `t2` is `t` with field `f` of the rows whose id is `id` set to `v`:
      no id changes, no other row changes, no other field changes. */
  ghost predicate WritesField(t: Table, t2: Table, id: int, f: Field, v: string) {
    && |t2| == |t|
    && (forall i :: 0 <= i < |t| ==> t2[i].id == t[i].id)
    && (forall i :: 0 <= i < |t| && t[i].id != id ==> t2[i] == t[i])
    && (forall i, g :: 0 <= i < |t| && t[i].id == id ==>
          FieldValue(t2[i], g) == if g == f then v else FieldValue(t[i], g))
  }

  /** `PUT /todos/:todoId/` with the evident intent of writing the column of
      the named field. A body with other than one key, or with a key the
      switch does not recognise, is "Invalid Data"; a value the field's
      validator rejects gets that field's 400; none of these writes. An
      accepted value is written to that one field of the row with that id and
      to nothing else; 404 when no row has that id. */
  function Update(t: Table, id: int, body: Body): (r: Outcome)
    ensures |body| != 1 ==> r == Outcome(InvalidData, t)
    ensures |body| == 1 && FieldOfKey(body[0].0).None? ==> r == Outcome(InvalidData, t)
    ensures |body| == 1 && FieldOfKey(body[0].0).Some? ==>
      var f, v := FieldOfKey(body[0].0).value, body[0].1;
      && (!Accepts(f, v) ==> f != TodoText && r == Outcome(Text(400, InvalidMessage(f)), t))
      && (Accepts(f, v) && HasId(t, id) ==> r.response == Text(200, UpdatedMessage(f)))
      && (Accepts(f, v) && !HasId(t, id) ==> r == Outcome(NotFound, t))
      && (Accepts(f, v) ==> WritesField(t, r.table, id, f, v))
    ensures r.response != NoReply
  {
    if |body| != 1 then Outcome(InvalidData, t)
    else
      var (key, value) := body[0];
      match FieldOfKey(key)
      case None => Outcome(InvalidData, t)
      case Some(f) =>
        if !Accepts(f, value) then Outcome(Text(400, InvalidMessage(f)), t)
        else
          var w := UpdateWhereId(t, id, ColumnOf(f), value).value;
          CountIdPositive(t, id);
          UpdateTouchesOneField(t, id, f, value, w);
          if w.changes > 0 then Outcome(Text(200, UpdatedMessage(f)), w.table)
          else Outcome(NotFound, t)
  }

  /** Distinct fields are written to distinct columns. */
  lemma ColumnOfInjective(f: Field, g: Field)
    ensures ColumnOf(f) == ColumnOf(g) ==> f == g
  {
  }

  /** Reading the effect of the UPDATE statement field by field. */
  lemma UpdateTouchesOneField(t: Table, id: int, f: Field, v: string, w: Written)
    requires UpdateWhereId(t, id, ColumnOf(f), v) == Some(w)
    ensures w.changes == 0 ==> w.table == t
    ensures WritesField(t, w.table, id, f, v)
  {
    forall i, g | 0 <= i < |t| && t[i].id == id
      ensures FieldValue(w.table[i], g) == if g == f then v else FieldValue(t[i], g)
    {
      ColumnOfInjective(f, g);
      assert Column(w.table[i], ColumnOf(g)) == Some(FieldValue(w.table[i], g));
      assert Column(t[i], ColumnOf(g)) == Some(FieldValue(t[i], g));
    }
    if w.changes == 0 {
      CountIdPositive(t, id);
      assert forall i :: 0 <= i < |t| ==> t[i].id != id;
      assert w.table == t;
    }
  }

  /** `PUT /todos/:todoId/` as written: the SQL names the column after the
      body key, so the key `dueDate` names no column, the UPDATE fails, the
      rejection is not caught and no response is sent. */
  function UpdateAsWritten(t: Table, id: int, body: Body): (r: Outcome)
    ensures r.response == NoReply <==> Resolves(body, DueDate) && IsValidDateFormat(body[0].1)
    ensures r.response == NoReply ==> r.table == t
  {
    if |body| != 1 then Outcome(InvalidData, t)
    else
      var (key, value) := body[0];
      match FieldOfKey(key)
      case None => Outcome(InvalidData, t)
      case Some(f) =>
        if !Accepts(f, value) then Outcome(Text(400, InvalidMessage(f)), t)
        else
          match UpdateWhereId(t, id, key, value)
          case None => Outcome(NoReply, t)
          case Some(w) =>
            if w.changes > 0 then Outcome(Text(200, UpdatedMessage(f)), w.table)
            else Outcome(NotFound, t)
  }

  // ---------------------------------------------------------------------
  // DELETE /todos/:todoId/
  // ---------------------------------------------------------------------

  /** `DELETE /todos/:todoId/`: every row with that id is removed; the reply
      is "Todo Deleted" only when exactly one row went. */
  function Delete(t: Table, id: int): (r: Outcome)
    ensures r.response == Deleted <==> CountId(t, id) == 1
    ensures r.response != Deleted ==> r.response == NotFound
    ensures forall x :: x in r.table <==> x in t && x.id != id
    ensures |r.table| == |t| - CountId(t, id)
    ensures !HasId(t, id) ==> r.table == t
  {
    var w := DeleteWhereId(t, id);
    CountIdPositive(t, id);
    if w.changes == 1 then Outcome(Deleted, w.table) else Outcome(NotFound, w.table)
  }

  // ---------------------------------------------------------------------
  // Every request
  // ---------------------------------------------------------------------

  /** The handler the route selects, once the middleware has passed. */
  function Dispatch(t: Table, q: Query, route: Route): Outcome {
    match route
    case GetTodos => Outcome(ListTodos(t, q), t)
    case GetTodoById(id) => Outcome(GetTodo(t, id), t)
    case GetAgenda => Outcome(Agenda(t, q.date), t)
    case PostTodo(b) => Create(t, b)
    case PutTodo(id, body) => Update(t, id, body)
    case DeleteTodoById(id) => Delete(t, id)
  }

  /** `app.use(validateQueryParams)` runs before every route: a failing query
      parameter answers its 400, checked in the order status, priority,
      category, date, whatever the route; only once all pass does the route's
      handler decide. The reads never write, and no 400 writes. */
  function Handle(t: Table, req: Request): (r: Outcome)
    ensures var q := req.query;
      && (!ParamOk(Status, q.status) ==> r == Outcome(Text(400, "Invalid Todo Status"), t))
      && (ParamOk(Status, q.status) && !ParamOk(Priority, q.priority) ==>
            r == Outcome(Text(400, "Invalid Todo Priority"), t))
      && (ParamOk(Status, q.status) && ParamOk(Priority, q.priority)
          && !ParamOk(Category, q.category) ==>
            r == Outcome(Text(400, "Invalid Todo Category"), t))
      && (ParamOk(Status, q.status) && ParamOk(Priority, q.priority)
          && ParamOk(Category, q.category) && !ParamOk(DueDate, q.date) ==>
            r == Outcome(Text(400, "Invalid Due Date"), t))
      && (ParamOk(Status, q.status) && ParamOk(Priority, q.priority)
          && ParamOk(Category, q.category) && ParamOk(DueDate, q.date) ==>
            r == Dispatch(t, q, req.route))
    ensures req.route.GetTodos? || req.route.GetTodoById? || req.route.GetAgenda? ==> r.table == t
    ensures r.response.Text? && r.response.code == 400 ==> r.table == t
    ensures r.response != NoReply
  {
    match ValidateQueryParams(req.query)
    case Some(f) => Outcome(Text(400, InvalidMessage(f)), t)
    case None => Dispatch(t, req.query, req.route)
  }

  /** The request entry point of the program as written: the same middleware
      and routes, with every PUT sent to `UpdateAsWritten`. It differs from
      `Handle` only on a PUT that passes the middleware and carries a valid
      `dueDate`, which gets no reply and writes nothing. */
  function HandleAsWritten(t: Table, req: Request): (r: Outcome)
    ensures (ValidateQueryParams(req.query).None? && req.route.PutTodo?
             && Resolves(req.route.body, DueDate) && IsValidDateFormat(req.route.body[0].1))
            ==> r == Outcome(NoReply, t)
    ensures r.response == NoReply ==> r.table == t
  {
    match (ValidateQueryParams(req.query), req.route)
    case (None, PutTodo(id, body)) => UpdateAsWritten(t, id, body)
    case _ => Handle(t, req)
  }
}
