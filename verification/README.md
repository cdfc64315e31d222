# Todo API request logic in Dafny

This project models the decision logic of a small Express + SQLite todo
service (`app.js`). The service stores todos with a text, a priority, a
status, a category and a due date. It answers six routes: list with filters,
get by id, agenda by date, create, update one field, and delete. Only the
code that decides what happens to a request is modelled:

- the four field validators;
- the query-parameter middleware that runs before every route;
- the WHERE clause the list and agenda routes build;
- the create, update and delete rules, with the response each one sends.

The SQLite table is an abstract store: a sequence of rows (`Storage.Table`)
in an order the model fixes, with each new row placed last. Each SQL statement is a pure function on it, and the write
statements report the driver's affected-row count (`changes`). Every handler
is a pure function from the table and the request to the response and the
new table.

Files, one module each:

- `common.dfy` (`Common`): optional fields, JavaScript truthiness, substring search.
- `validators.dfy` (`Validators`): the status, priority, category and date
  validators, and the closed set of todo fields with their messages.
- `storage.dfy` (`Storage`): rows, columns, and SELECT, INSERT, UPDATE and DELETE
  with their row counts.
- `gate.dfy` (`Gate`): the ordered "first failing check" rule, shared by
  the middleware and by create.
- `handlers.dfy` (`Handlers`): the six route handlers and the request entry point.
- `properties.dfy` (`Properties`): properties spanning several calls, and
  the end-to-end scenarios.

Where the service's documented design and its code disagree, the model
follows the code. The one defect listed under "## Findings" is modelled both
ways: `Handlers.Handle` is the request entry point with that defect
corrected, and `Handlers.HandleAsWritten` is the entry point of the code as
written. The disagreements:

- The status literal is `"TO DO"`, with a space.
- Queries are built by string concatenation. The model reads them as
  predicates and does not model injection.
- Delete succeeds only when `changes === 1`. Update succeeds when
  `changes > 0`.
- An update of the `todo` key accepts any value, including `""`.
  `Properties.UpdateCanEmptyTheText` shows that a stored row's text can
  become empty this way.

Assumption: the table schema is not in the sources. The model takes `id` to
be the table's primary key. So an INSERT with an id that is already stored
fails, and the create handler's `catch` turns that into a 500.

## Model

| member | source | states |
|---|---|---|
| Validators.StatusValidatorIsEnumeration | app.js:44-46 | the status check accepts a string iff it is the name of one of the three statuses TO DO, IN PROGRESS, DONE |
| Validators.PriorityValidatorIsEnumeration | app.js:48-50 | the priority check accepts a string iff it is the name of one of HIGH, MEDIUM, LOW |
| Validators.CategoryValidatorIsEnumeration | app.js:52-54 | the category check accepts a string iff it is the name of one of WORK, HOME, LEARNING |
| Validators.FirstDateShape | app.js:57 | the scan returns the leftmost start index from which ten characters read digit×4 '-' digit×2 '-' digit×2; it returns none only when no such index exists |
| Validators.IsValidDateFormat | app.js:56-58 | the date check is true iff the digit×4 '-' digit×2 '-' digit×2 shape occurs anywhere in the string; it is an unanchored shape check, not a calendar check |
| Properties.DateShapeExamples | app.js:56-58 | "2021-02-02", "2021-13-40", "x2021-02-02y" and "12021-02-022" pass; "2021-2-2", "2021/02/02" and "undefined" fail |
| Validators.FieldOfKey | app.js:221-261 | the update switch recognises exactly the keys status, priority, todo, category and dueDate, each naming its own field; every other key is unrecognised |
| Validators.OnlyTextIsUnchecked | app.js:222-256 | the todo field is the one field whose value is never rejected; every other field has a value its validator refuses |
| Common.ContainsIsSubstring | app.js:99-101 | the search test on the text holds iff the search string occurs in the text at some position |
| Gate.FirstFailure | app.js:60-75 | the checks run in order; the result is the first check whose value is truthy and rejected, and none only when no check fails; absent or empty values are never rejected |
| Gate.ValidateQueryParams | app.js:60-75 | 400 "Invalid Todo Status" iff the status is truthy and invalid; the priority message iff status passes and priority fails; the category message iff both pass and category fails; "Invalid Due Date" iff the first three pass and date fails; otherwise the request continues |
| Gate.UncheckedParamsAreIgnored | app.js:61-73 | an absent or empty status gives the same verdict as no status at all, and search_q never affects the verdict |
| Handlers.Handle | app.js:60-77 | the middleware runs before every route, then the route table (`Handlers.Dispatch`: app.js:79, 107, 121, 176, 212, 279) picks the handler: whatever the route, an invalid status answers 400 "Invalid Todo Status"; with status passing, an invalid priority answers "Invalid Todo Priority", then category, then date, each leaving the table unchanged; only when all four pass does the route's handler decide; the three GET routes never change the table, no 400 answer changes it, and every request is answered |
| Handlers.HandleAsWritten | app.js:212-277 | the program as written: a PUT that passes the middleware with one dueDate key and a date-shaped value gets no reply and changes nothing |
| Properties.HandleAsWrittenAgreesElsewhere | app.js:212-277 | on every other request the program as written answers exactly as the corrected one |
| Properties.HandleAsWrittenPreservesInvariants | app.js:176-291 | the program as written also keeps ids unique and every stored row valid |
| Storage.Select | app.js:82-103 | a SELECT returns exactly the stored rows that satisfy every condition, with no row more often than it is stored, and the whole table when there are no conditions |
| Handlers.ListConditions | app.js:82-101 | the WHERE clause has a conjunct for each truthy parameter and none otherwise; a row satisfies it iff its status, priority, category and due date equal every supplied filter and its text contains a truthy search_q |
| Handlers.ListTodos | app.js:79-105 | GET /todos/ lists exactly the stored rows matching every supplied filter, and the whole table when no filter and no search_q is supplied |
| Properties.AddingFiltersShrinksListing | app.js:87-101 | supplying more filters, with the earlier ones unchanged, never adds a row to the listing |
| Properties.ListByStatus | app.js:87-89 | status=DONE lists exactly the rows whose status is DONE |
| Storage.FindById | app.js:107-113 | the lookup by id returns a stored row with that id, and nothing iff no stored row has that id |
| Handlers.GetTodo | app.js:107-119 | GET /todos/:todoId/ returns a stored row with that id if there is one, and 404 "Todo not found" otherwise |
| Properties.GetFindsRowAt | app.js:107-115 | with unique ids, reading an id back returns the row that holds it |
| Handlers.Agenda | app.js:121-137 | an absent date or a date without the date shape gives 400 "Invalid Due Date"; otherwise the result lists exactly the stored rows whose due date equals the date, none more often than it is stored |
| Properties.ShortStringsAreNotDates | app.js:124-126 | a string shorter than ten characters, such as "undefined", the text an absent date is tested as, never passes the date check |
| Storage.Insert | app.js:200-204 | the INSERT adds exactly the new row (placed last in the model's row order), fails iff its id is already stored, and keeps ids unique |
| Handlers.Create | app.js:176-210 | a missing or empty todo, priority, status, category or dueDate gives 400 "Invalid Data"; otherwise status, priority, category and dueDate are checked in that order and the first failure gives its own 400; id is never validated; once all checks pass, a missing id or an id already stored gives 500 "Internal Server Error" and otherwise the INSERT adds exactly the new row; every outcome but success leaves the table unchanged |
| Properties.CreateRefusesEmptyText | app.js:179-181 | an empty todo text is refused with "Invalid Data" before any validator runs |
| Properties.CreatePreservesRowsValid | app.js:183-204 | a create stores only rows whose status, priority and category are legal and whose due date has the date shape |
| Storage.CountIdPositive | app.js:268-269 | a WHERE id clause affects some row iff a row with that id is stored |
| Storage.CountIdOfUnique | app.js:285-286 | with unique ids a WHERE id clause affects at most one row, and exactly one iff the id is stored |
| Storage.SetColumn | app.js:263-266 | setting a column of a row changes that column to the value and leaves the id and every other column alone; it fails iff the name is not a text column |
| Storage.UpdateWhereId | app.js:263-268 | the UPDATE fails iff the column does not exist; otherwise it changes that column of exactly the rows with the id, changes nothing else, and reports how many rows matched |
| Handlers.Update | app.js:212-277 | a body with other than one key, or one unrecognised key, gives 400 "Invalid Data"; a rejected value gives its field's 400; none of these writes; an accepted value changes only that field of the row with that id and replies "<Field> Updated", or 404 "Todo not found" with the table unchanged when no such row exists |
| Properties.UpdateRejections | app.js:215-276 | {}, {todo, priority}, {id} give "Invalid Data", {priority: URGENT} gives "Invalid Todo Priority", and {status: DONE} on a missing id gives 404, each with the table unchanged |
| Properties.UpdatePreservesRowsValid | app.js:222-266 | an update keeps every row's status, priority and category legal and its due date date-shaped |
| Properties.UpdateCanEmptyTheText | app.js:238-240 | a body {todo: ""} is accepted and stores an empty text in the row |
| Handlers.UpdateAsWritten | app.js:212-277 | the handler as written answers nothing exactly for a recognised dueDate key with a date-shaped value, because the SQL names the column after the body key; then nothing is written |
| Properties.DueDateUpdateAsWrittenIsLost | app.js:250-268 | as written, a valid due-date update gets no reply and changes nothing |
| Properties.UpdateAsWrittenAgreesElsewhere | app.js:263-268 | apart from the due-date key, the handler as written behaves exactly like the corrected one |
| Properties.DueDateUpdateWrites | app.js:250-270 | corrected, a valid due-date update of a stored row replies "Due Date Updated" and stores the date in that row |
| Storage.DeleteWhereId | app.js:281-285 | the DELETE removes exactly the rows with that id, keeps all others, and reports as many changes as rows removed |
| Storage.UpdatePreservesUniqueIds | app.js:263-268 | an UPDATE of a text column succeeds and never changes an id, so ids stay unique |
| Storage.DeletePreservesUniqueIds | app.js:281-285 | a delete keeps the remaining ids unique |
| Handlers.Delete | app.js:279-291 | "Todo Deleted" iff exactly one row had the id, else 404 "Todo not found"; afterwards no row with that id remains and the others are kept |
| Properties.DeleteRemovesExactlyThatRow | app.js:279-291 | with unique ids, delete succeeds iff the id is stored, removes exactly one row, and leaves no row with that id |
| Properties.DeleteTwice | app.js:279-291 | deleting the same stored id twice succeeds once and then answers 404 |
| Properties.HandlePreservesUniqueIds | app.js:176-291 | no request makes two rows share an id |
| Properties.HandlePreservesRowsValid | app.js:176-291 | no request stores an illegal status, priority or category or a due date without the date shape |
| Properties.ScenarioCreateThenGet | app.js:176-210 | creating todo 6 answers "Todo Successfully Added" and a GET /todos/6/ through the middleware returns the stored fields with the table unchanged |
| Properties.ScenarioUpdateStatus | app.js:212-277 | setting status DONE on todo 6 answers "Status Updated" and changes only its status |
| Properties.ScenarioDeleteMissing | app.js:279-291 | deleting the missing id 999 answers 404 and leaves the table unchanged |

## Left out

- Server start-up, routing, `app.listen`, opening the database and `process.exit` (app.js:9-31). These are process lifecycle and I/O.
- The asynchronous SQLite driver. It is replaced by the pure store in `Storage`.
- Response formatting (app.js:33-42). `convertDataDbObjectToResponseObject` re-parses the due date with JavaScript `Date` and `date-fns` `format`, which depends on the time zone. Responses carry the stored row.
- Handlers.ListTodos: a listed row whose due date JavaScript `Date` cannot parse makes `format` throw (app.js:40), and the request is never answered (app.js:104). The shape check admits such dates, for example "2021-13-40" and "x2021-02-02y", and create stores them. The model answers with the rows.
- Handlers.GetTodo: the same failure for a row with an unparseable due date (app.js:115); the model answers with the row.
- Handlers.Agenda: the same failure when the rows due on the date have an unparseable due date (app.js:135); the model answers with the rows.
- SQL text and injection. Query values are spliced into the SQL text. A value containing a quote would change or break the statement; the model treats every value as data.
- Common.ContainsIsSubstring: the search is plain, case-sensitive substring containment. SQLite `LIKE` ignores ASCII case and reads `%` and `_` in `search_q` as wildcards.
- Request-shape quirks are not modelled: repeated query parameters that Express turns into arrays, non-string JSON body values, and path ids that are not integers.
- Storage errors in the GET, PUT and DELETE handlers are not caught. `Response.NoReply` models what that does to the one request under Express 4: the rejected promise is never answered. Under Express 5 the request would get a 500 instead, and on Node 15 or later an unhandled rejection ends the whole process; neither is modelled. The model covers only the failure that the code's own logic causes, the dueDate update.
- Storage.Insert: the position of a new row is the model's choice. SQLite promises no row order for a SELECT without ORDER BY, and if `id` is an INTEGER PRIMARY KEY a full scan returns rows in id order, not insertion order. Only the set of rows and how often each occurs are the program's; the order in which the model keeps them is not.
- Handlers.ListTodos: for the same reason, `NoFilters(q) ==> r.rows == t` fixes the listing to the model's row order. The program promises only the same rows, each as often as it is stored: `app.js:82-103` has no ORDER BY. The same holds for the order of `Handlers.Agenda`'s rows.
- Handlers.Handle: sends every PUT to the corrected `Handlers.Update`, so it and the invariants proved of it describe the program with the dueDate defect fixed. The program as written is `Handlers.HandleAsWritten`, and `Properties.HandleAsWrittenPreservesInvariants` carries the invariants over to it.
- Handlers.Create: the id comes from the body as an optional integer. An absent id makes the INSERT fail (500), and so does an id already stored (under the primary-key assumption above). A `null` id is not modelled; SQLite would auto-number it only if `id` is an INTEGER PRIMARY KEY.
- The handlers that sit inside block comments (app.js:139-174 and app.js:295-1015) are not live code.

## Findings

| source | as written | input that shows it | evidently intended | confidence | as-written member | corrected member |
|---|---|---|---|---|---|---|
| app.js:263-266 | the UPDATE names the column after the body key, `SET ${key} = ...`; for the key `dueDate` that is not a column (the table's column is `due_date`, app.js:201), so the statement fails, the rejection is not caught, and no response is sent | PUT /todos/1/ with body {"dueDate": "2021-12-12"} | write the `due_date` column and reply "Due Date Updated" (or 404) like every other field | high; not executed | Handlers.UpdateAsWritten, Handlers.HandleAsWritten, Properties.DueDateUpdateAsWrittenIsLost | Handlers.Update, Properties.DueDateUpdateWrites |
