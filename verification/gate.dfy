/** The ordered field checks shared by the query-parameter middleware
    (`validateQueryParams`) and the create handler: each check pairs a field
    with the value the request supplied, and the first one that fails decides
    the 400 message. */
module Gate {
  import opened Common
  import opened Validators

  /** The query string parameters the handlers read. */
  datatype Query = Query(status: Option<string>, priority: Option<string>,
                         category: Option<string>, date: Option<string>,
                         searchQ: Option<string>)

  /** A field and the value supplied for it. */
  type Check = (Field, Option<string>)

  /** `value && !isValidX(value)`: a truthy value its field's validator rejects.
      An absent or empty value is never checked. */
  predicate Fails(c: Check) {
    Truthy(c.1) && !Accepts(c.0, c.1.value)
  }

  /** The field of the first failing check, in order; `None` when all pass. */
  function FirstFailure(cs: seq<Check>): (r: Option<Field>)
    ensures r.None? <==> forall i :: 0 <= i < |cs| ==> !Fails(cs[i])
    ensures r.Some? ==> exists i :: 0 <= i < |cs| && cs[i].0 == r.value && Fails(cs[i])
                                  && forall j :: 0 <= j < i ==> !Fails(cs[j])
    ensures r.Some? ==> r.value != TodoText
    decreases |cs|
  {
    if |cs| == 0 then None
    else if Fails(cs[0]) then Some(cs[0].0)
    else
      var r := FirstFailure(cs[1..]);
      assert forall i :: 1 <= i < |cs| ==> cs[i] == cs[1..][i - 1];
      r
  }

  /** The middleware's checks, in the order it makes them. */
  function QueryChecks(q: Query): seq<Check> {
    [(Status, q.status), (Priority, q.priority), (Category, q.category), (DueDate, q.date)]
  }

  /** A parameter passes the middleware when it is absent, empty, or valid. */
  predicate ParamOk(f: Field, v: Option<string>) {
    !Truthy(v) || Accepts(f, v.value)
  }

  /** `validateQueryParams`: `Some(f)` answers 400 with `InvalidMessage(f)`,
      `None` calls `next()`. Status is checked first, then priority, then
      category, then date; `search_q` is not checked. */
  function ValidateQueryParams(q: Query): (r: Option<Field>)
    ensures r.None? <==> ParamOk(Status, q.status) && ParamOk(Priority, q.priority)
                         && ParamOk(Category, q.category) && ParamOk(DueDate, q.date)
    ensures r == Some(Status) <==> !ParamOk(Status, q.status)
    ensures r == Some(Priority) <==> ParamOk(Status, q.status) && !ParamOk(Priority, q.priority)
    ensures r == Some(Category) <==> ParamOk(Status, q.status) && ParamOk(Priority, q.priority)
                                     && !ParamOk(Category, q.category)
    ensures r == Some(DueDate) <==> ParamOk(Status, q.status) && ParamOk(Priority, q.priority)
                                    && ParamOk(Category, q.category) && !ParamOk(DueDate, q.date)
    ensures r != Some(TodoText)
  {
    var cs := QueryChecks(q);
    assert |cs| == 4 && cs[0] == (Status, q.status) && cs[1] == (Priority, q.priority)
           && cs[2] == (Category, q.category) && cs[3] == (DueDate, q.date);
    assert forall i :: 0 <= i < 4 ==> (Fails(cs[i]) <==> !ParamOk(cs[i].0, cs[i].1));
    FirstFailure(cs)
  }

  /** Whether a parameter is absent or empty never changes the verdict, and
      neither does `search_q`. */
  lemma UncheckedParamsAreIgnored(q: Query, s: Option<string>)
    requires !Truthy(q.status)
    ensures ValidateQueryParams(q.(status := None)) == ValidateQueryParams(q)
    ensures ValidateQueryParams(q.(searchQ := s)) == ValidateQueryParams(q)
  {
  }
}
