/** Properties that relate several calls: the date-shape examples, narrowing
    a listing, the invariants every request keeps, delete idempotence, the
    end-to-end scenarios, and the dueDate update defect. */
module Properties {
  import opened Common
  import opened Validators
  import opened Storage
  import opened Gate
  import opened Handlers

  // ---------------------------------------------------------------------
  // Date shape
  // ---------------------------------------------------------------------

  /** The date check looks at shape only and is not anchored: it accepts a
      month 13, and any string with the shape somewhere inside it. */
  lemma DateShapeExamples()
    ensures IsValidDateFormat("2021-02-02")
    ensures !IsValidDateFormat("2021-2-2")
    ensures IsValidDateFormat("2021-13-40")
    ensures IsValidDateFormat("x2021-02-02y")
    ensures IsValidDateFormat("12021-02-022")
    ensures !IsValidDateFormat("undefined")
    ensures !IsValidDateFormat("2021/02/02")
  {
  }

  /** A string shorter than ten characters never has the date shape, so an
      absent agenda date (tested as "undefined") is rejected. */
  lemma ShortStringsAreNotDates(s: string)
    requires |s| < 10
    ensures !IsValidDateFormat(s)
  {
  }

  // ---------------------------------------------------------------------
  // Listing
  // ---------------------------------------------------------------------

  /** `q2` supplies every filter `q1` supplies, with the same value (and
      possibly more). */
  predicate Narrows(q2: Query, q1: Query) {
    && (Truthy(q1.status) ==> q2.status == q1.status)
    && (Truthy(q1.priority) ==> q2.priority == q1.priority)
    && (Truthy(q1.category) ==> q2.category == q1.category)
    && (Truthy(q1.date) ==> q2.date == q1.date)
    && (Truthy(q1.searchQ) ==> q2.searchQ == q1.searchQ)
  }

  /** Adding a filter can only shrink the listing. */
  lemma AddingFiltersShrinksListing(t: Table, q1: Query, q2: Query)
    requires Narrows(q2, q1)
    ensures forall x :: x in ListTodos(t, q2).rows ==> x in ListTodos(t, q1).rows
  {
  }

  /** `GET /todos/?status=DONE` lists the done rows and nothing else. */
  lemma ListByStatus(t: Table)
    ensures var q := Query(Some("DONE"), None, None, None, None);
      forall x :: x in ListTodos(t, q).rows <==> x in t && x.status == "DONE"
  {
  }

  // ---------------------------------------------------------------------
  // Invariants of every request
  // ---------------------------------------------------------------------

  /** No request makes two rows share an id. */
  lemma HandlePreservesUniqueIds(t: Table, req: Request)
    requires UniqueIds(t)
    ensures UniqueIds(Handle(t, req).table)
  {
    if ValidateQueryParams(req.query).None? {
      match req.route
      case DeleteTodoById(id) => DeletePreservesUniqueIds(t, id);
      case PutTodo(id, body) =>
        if |body| == 1 && FieldOfKey(body[0].0).Some? {
          UpdatePreservesUniqueIds(t, id, ColumnOf(FieldOfKey(body[0].0).value), body[0].1);
        }
      case _ =>
    }
  }

  /** The program as written answers every request as the corrected one
      does, except a valid due-date PUT, which it leaves unanswered. */
  lemma HandleAsWrittenAgreesElsewhere(t: Table, req: Request)
    requires !(req.route.PutTodo? && Resolves(req.route.body, DueDate)
               && IsValidDateFormat(req.route.body[0].1))
    ensures HandleAsWritten(t, req) == Handle(t, req)
  {
  }

  /** The program as written keeps ids unique and stored rows valid too. */
  lemma HandleAsWrittenPreservesInvariants(t: Table, req: Request)
    requires UniqueIds(t) && RowsValid(t)
    ensures UniqueIds(HandleAsWritten(t, req).table)
    ensures RowsValid(HandleAsWritten(t, req).table)
  {
    if !(req.route.PutTodo? && Resolves(req.route.body, DueDate)
         && IsValidDateFormat(req.route.body[0].1)) {
      HandleAsWrittenAgreesElsewhere(t, req);
      HandlePreservesUniqueIds(t, req);
      HandlePreservesRowsValid(t, req);
    }
  }

  /** A create admits only a row whose enumerated fields are legal. */
  lemma CreatePreservesRowsValid(t: Table, b: NewTodo)
    requires RowsValid(t)
    ensures RowsValid(Create(t, b).table)
  {
  }

  /** Writing a value its field accepts into a valid row keeps it valid. */
  lemma WrittenRowValid(before: Todo, after: Todo, f: Field, v: string)
    requires RowValid(before) && Accepts(f, v)
    requires forall g :: FieldValue(after, g) == if g == f then v else FieldValue(before, g)
    ensures RowValid(after)
  {
    assert FieldValue(after, Status) == FieldValue(before, Status) || f == Status;
    assert FieldValue(after, Priority) == FieldValue(before, Priority) || f == Priority;
    assert FieldValue(after, Category) == FieldValue(before, Category) || f == Category;
    assert FieldValue(after, DueDate) == FieldValue(before, DueDate) || f == DueDate;
  }

  /** An update validates the one field it writes. */
  lemma UpdatePreservesRowsValid(t: Table, id: int, body: Body)
    requires RowsValid(t)
    ensures RowsValid(Update(t, id, body).table)
  {
    var r := Update(t, id, body);
    if |body| == 1 && FieldOfKey(body[0].0).Some? {
      var f, v := FieldOfKey(body[0].0).value, body[0].1;
      if Accepts(f, v) {
        assert WritesField(t, r.table, id, f, v);
        forall i | 0 <= i < |r.table| ensures RowValid(r.table[i]) {
          if t[i].id == id {
            WrittenRowValid(t[i], r.table[i], f, v);
          }
        }
      }
    }
  }

  /** Every stored row keeps legal status, priority and category values and
      a date-shaped due date, whatever the request. */
  lemma HandlePreservesRowsValid(t: Table, req: Request)
    requires RowsValid(t)
    ensures RowsValid(Handle(t, req).table)
  {
    if ValidateQueryParams(req.query).None? {
      match req.route
      case PostTodo(b) => CreatePreservesRowsValid(t, b);
      case PutTodo(id, body) => UpdatePreservesRowsValid(t, id, body);
      case DeleteTodoById(id) => DeletePreservesRowsValid(t, id);
      case _ =>
    }
  }

  /** A delete only drops rows. */
  lemma DeletePreservesRowsValid(t: Table, id: int)
    requires RowsValid(t)
    ensures RowsValid(Delete(t, id).table)
  {
  }

  /** The text is the one field update does not check: a body `{"todo": ""}`
      stores an empty text in a stored row. */
  lemma UpdateCanEmptyTheText(t: Table, id: int)
    requires HasId(t, id)
    ensures var r := Update(t, id, [("todo", "")]);
      r.response == Text(200, "Todo Updated")
      && exists i :: 0 <= i < |r.table| && r.table[i].id == id && r.table[i].todo == ""
  {
  }

  /** Create, in contrast, refuses an empty text. */
  lemma CreateRefusesEmptyText(t: Table, b: NewTodo)
    requires b.todo == Some("")
    ensures Create(t, b) == Outcome(InvalidData, t)
  {
  }

  // ---------------------------------------------------------------------
  // Delete
  // ---------------------------------------------------------------------

  /** With unique ids, delete answers "Todo Deleted" exactly when the id is
      stored, and afterwards the id is gone. */
  lemma DeleteRemovesExactlyThatRow(t: Table, id: int)
    requires UniqueIds(t)
    ensures Delete(t, id).response == Deleted <==> HasId(t, id)
    ensures !HasId(Delete(t, id).table, id)
    ensures HasId(t, id) ==> |Delete(t, id).table| == |t| - 1
  {
    CountIdOfUnique(t, id);
  }

  /** Deleting the same id twice succeeds once, then answers 404. */
  lemma DeleteTwice(t: Table, id: int)
    requires UniqueIds(t) && HasId(t, id)
    ensures Delete(t, id).response == Deleted
    ensures Delete(Delete(t, id).table, id).response == NotFound
  {
    DeleteRemovesExactlyThatRow(t, id);
    var t1 := Delete(t, id).table;
    CountIdPositive(t1, id);
  }

  // ---------------------------------------------------------------------
  // Update
  // ---------------------------------------------------------------------

  /** Malformed and rejected update bodies: no key, two keys, an unknown key
      and a value outside the field's domain; a valid body for a missing id
      is 404. None of them writes. */
  lemma UpdateRejections(t: Table, id: int)
    ensures Update(t, id, []) == Outcome(InvalidData, t)
    ensures Update(t, id, [("todo", "x"), ("priority", "HIGH")]) == Outcome(InvalidData, t)
    ensures Update(t, id, [("id", "7")]) == Outcome(InvalidData, t)
    ensures Update(t, id, [("priority", "URGENT")]) == Outcome(Text(400, "Invalid Todo Priority"), t)
    ensures !HasId(t, id) ==> Update(t, id, [("status", "DONE")]) == Outcome(NotFound, t)
  {
  }

  // ---------------------------------------------------------------------
  // The dueDate update defect
  // ---------------------------------------------------------------------

  /** As written, a well-formed due-date update never answers and never
      writes, even for a stored id. */
  lemma DueDateUpdateAsWrittenIsLost(t: Table, id: int, v: string)
    requires IsValidDateFormat(v)
    ensures UpdateAsWritten(t, id, [("dueDate", v)]) == Outcome(NoReply, t)
  {
  }

  /** Apart from the due-date key the handler as written behaves like the
      corrected one. */
  lemma UpdateAsWrittenAgreesElsewhere(t: Table, id: int, body: Body)
    requires !(Resolves(body, DueDate) && IsValidDateFormat(body[0].1))
    ensures UpdateAsWritten(t, id, body) == Update(t, id, body)
  {
  }

  /** Corrected, a due-date update of a stored row answers "Due Date Updated"
      and stores the new date in that row. */
  lemma DueDateUpdateWrites(t: Table, id: int, v: string)
    requires IsValidDateFormat(v) && HasId(t, id)
    ensures var r := Update(t, id, [("dueDate", v)]);
      r.response == Text(200, "Due Date Updated")
      && exists i :: 0 <= i < |r.table| && r.table[i].id == id && r.table[i].dueDate == v
  {
  }

  // ---------------------------------------------------------------------
  // End-to-end scenarios
  // ---------------------------------------------------------------------

  const EventTheme := NewTodo(Some(6), Some("Finalize event theme"), Some("LOW"), Some("TO DO"),
                              Some("HOME"), Some("2021-02-22"))
  const NoQuery := Query(None, None, None, None, None)

  const EventRow := Todo(6, "Finalize event theme", "LOW", "TO DO", "HOME", "2021-02-22")

  /** In a table with unique ids, reading an id back gives the row at the
      position that holds it. */
  lemma GetFindsRowAt(t: Table, k: int)
    requires UniqueIds(t) && 0 <= k < |t|
    ensures GetTodo(t, t[k].id) == One(t[k])
  {
  }

  /** Scenario A: creating todo 6 answers "Todo Successfully Added" and
      reading it back gives the stored fields. */
  lemma ScenarioCreateThenGet(t: Table)
    requires UniqueIds(t) && !HasId(t, 6)
    ensures Handle(t, Request(NoQuery, PostTodo(EventTheme))) == Outcome(Added, t + [EventRow])
    ensures Handle(t + [EventRow], Request(NoQuery, GetTodoById(6)))
            == Outcome(One(EventRow), t + [EventRow])
  {
    assert DateShapeAt("2021-02-22", 0);
    GetFindsRowAt(t + [EventRow], |t|);
  }

  /** Two rows with the same id and the same value in every field are equal. */
  lemma RowsEqualByFields(a: Todo, b: Todo)
    requires a.id == b.id && forall g :: FieldValue(a, g) == FieldValue(b, g)
    ensures a == b
  {
    assert FieldValue(a, TodoText) == FieldValue(b, TodoText);
    assert FieldValue(a, Status) == FieldValue(b, Status);
    assert FieldValue(a, Priority) == FieldValue(b, Priority);
    assert FieldValue(a, Category) == FieldValue(b, Category);
    assert FieldValue(a, DueDate) == FieldValue(b, DueDate);
  }

  /** A write to the id of the last row, whose id occurs nowhere before it,
      leaves the earlier rows alone. */
  lemma WritesLastRow(u: Table, row: Todo, t2: Table, f: Field, v: string)
    requires !HasId(u, row.id)
    requires WritesField(u + [row], t2, row.id, f, v)
    ensures t2 == u + [t2[|u|]]
    ensures t2[|u|].id == row.id
    ensures forall g :: FieldValue(t2[|u|], g) == if g == f then v else FieldValue(row, g)
  {
  }

  /** Scenario B: marking todo 6 done answers "Status Updated" and changes
      its status only. */
  lemma ScenarioUpdateStatus(t: Table)
    requires !HasId(t, 6)
    ensures var r := Handle(t + [EventRow], Request(NoQuery, PutTodo(6, [("status", "DONE")])));
      && r.response == Text(200, "Status Updated")
      && r.table == t + [EventRow.(status := "DONE")]
  {
    var t1 := t + [EventRow];
    var body: Body := [("status", "DONE")];
    assert FieldOfKey(body[0].0) == Some(Status) && Accepts(Status, "DONE");
    assert HasId(t1, 6) by { assert t1[|t|].id == 6; }
    assert ValidateQueryParams(NoQuery).None?;
    var r := Update(t1, 6, body);
    assert r.response == Text(200, "Status Updated");
    assert WritesField(t1, r.table, 6, Status, "DONE");
    WritesLastRow(t, EventRow, r.table, Status, "DONE");
    var done := EventRow.(status := "DONE");
    assert forall g :: FieldValue(done, g) == if g == Status then "DONE" else FieldValue(EventRow, g);
    RowsEqualByFields(r.table[|t|], done);
  }

  /** Scenario C: deleting an id that is not stored answers 404. */
  lemma ScenarioDeleteMissing(t: Table)
    requires !HasId(t, 999)
    ensures Handle(t, Request(NoQuery, DeleteTodoById(999))) == Outcome(NotFound, t)
  {
  }
}
