/** The table `todo(id, todo, priority, status, category, due_date)` as an
    abstract store: a sequence of rows in an order the model fixes (new rows
    go last; SQLite itself promises no order), with the effect of
    each SQL statement the handlers issue and the affected-row count the
    driver reports. */
module Storage {
  import opened Common

  /** One stored row; `dueDate` is the `due_date` column. */
  datatype Todo = Todo(id: int, todo: string, priority: string, status: string,
                       category: string, dueDate: string)

  /** The rows of the table, in the model's row order. */
  type Table = seq<Todo>

  /** The result of a write statement: the new table and the driver's
      `changes` count. */
  datatype Written = Written(table: Table, changes: nat)

  /** No two rows share an id (id is the table's key). */
  predicate UniqueIds(t: Table) {
    forall i, j :: 0 <= i < j < |t| ==> t[i].id != t[j].id
  }

  predicate HasId(t: Table, id: int) {
    exists i :: 0 <= i < |t| && t[i].id == id
  }

  /** Number of rows a `WHERE id = <id>` clause selects. */
  function CountId(t: Table, id: int): nat {
    if t == [] then 0
    else (if t[0].id == id then 1 else 0) + CountId(t[1..], id)
  }

  /** A `WHERE id = <id>` clause affects some row exactly when a row with
      that id exists. */
  lemma {:induction false} CountIdPositive(t: Table, id: int)
    ensures CountId(t, id) > 0 <==> HasId(t, id)
    decreases |t|
  {
    if t != [] {
      CountIdPositive(t[1..], id);
      if t[0].id != id {
        if HasId(t, id) {
          var i :| 0 <= i < |t| && t[i].id == id;
          assert t[1..][i - 1].id == id;
        }
        if HasId(t[1..], id) {
          var i :| 0 <= i < |t[1..]| && t[1..][i].id == id;
          assert t[i + 1].id == id;
        }
      }
    }
  }

  /** With unique ids a `WHERE id = <id>` clause affects at most one row, and
      one exactly when a row with that id exists. */
  lemma {:induction false} CountIdOfUnique(t: Table, id: int)
    requires UniqueIds(t)
    ensures CountId(t, id) <= 1
    ensures CountId(t, id) == 1 <==> HasId(t, id)
    decreases |t|
  {
    if t != [] {
      assert UniqueIds(t[1..]) by {
        forall i, j | 0 <= i < j < |t[1..]| ensures t[1..][i].id != t[1..][j].id {
          assert t[1..][i] == t[i + 1] && t[1..][j] == t[j + 1];
        }
      }
      CountIdOfUnique(t[1..], id);
      CountIdPositive(t, id);
      CountIdPositive(t[1..], id);
      if t[0].id == id {
        HeadIdIsFresh(t);
      }
    }
  }

  // ---------------------------------------------------------------------
  // Columns
  // ---------------------------------------------------------------------

  /** The text columns of the table. */
  const TextColumns: set<string> := {"todo", "priority", "status", "category", "due_date"}

  /** The value of a text column of a row; `None` for a name that is not one. */
  function Column(row: Todo, col: string): (r: Option<string>)
    ensures r.Some? <==> col in TextColumns
  {
    match col
    case "todo" => Some(row.todo)
    case "priority" => Some(row.priority)
    case "status" => Some(row.status)
    case "category" => Some(row.category)
    case "due_date" => Some(row.dueDate)
    case _ => None
  }

  /** `SET <col> = '<v>'` applied to one row; `None` when `col` is not a
      text column. */
  function SetColumn(row: Todo, col: string, v: string): (r: Option<Todo>)
    ensures r.Some? <==> col in TextColumns
    ensures r.Some? ==> r.value.id == row.id && Column(r.value, col) == Some(v)
    ensures r.Some? ==> forall c :: c != col ==> Column(r.value, c) == Column(row, c)
  {
    match col
    case "todo" => Some(row.(todo := v))
    case "priority" => Some(row.(priority := v))
    case "status" => Some(row.(status := v))
    case "category" => Some(row.(category := v))
    case "due_date" => Some(row.(dueDate := v))
    case _ => None
  }

  // ---------------------------------------------------------------------
  // SELECT
  // ---------------------------------------------------------------------

  /** One conjunct of a WHERE clause: `col = 'v'`, or `col LIKE '%n%'` read
      as substring containment. */
  datatype Condition = Equals(column: string, value: string) | Like(column: string, needle: string)

  predicate Holds(c: Condition, row: Todo) {
    match c
    case Equals(col, v) => Column(row, col) == Some(v)
    case Like(col, n) => Column(row, col).Some? && Contains(Column(row, col).value, n)
  }

  /** `WHERE 1 = 1 AND c0 AND c1 ...` */
  predicate AllHold(cs: seq<Condition>, row: Todo) {
    forall i :: 0 <= i < |cs| ==> Holds(cs[i], row)
  }

  /** A conjunction of two condition lists holds when each of them does. */
  lemma AllHoldConcat(a: seq<Condition>, b: seq<Condition>, row: Todo)
    ensures AllHold(a + b, row) <==> AllHold(a, row) && AllHold(b, row)
  {
    if AllHold(a, row) && AllHold(b, row) {
      forall i | 0 <= i < |a + b| ensures Holds((a + b)[i], row) {
        if i >= |a| { assert (a + b)[i] == b[i - |a|]; }
      }
    }
    if AllHold(a + b, row) {
      forall i | 0 <= i < |a| ensures Holds(a[i], row) {
        assert (a + b)[i] == a[i];
      }
      forall i | 0 <= i < |b| ensures Holds(b[i], row) {
        assert (a + b)[|a| + i] == b[i];
      }
    }
  }

  /** `SELECT * FROM todo WHERE <cs>`: the rows satisfying every condition,
      in the model's row order. */
  function Select(t: Table, cs: seq<Condition>): (r: Table)
    ensures forall x :: x in r <==> x in t && AllHold(cs, x)
    ensures multiset(r) <= multiset(t)
    ensures cs == [] ==> r == t
    decreases |t|
  {
    if t == [] then []
    else
      assert t == [t[0]] + t[1..];
      if AllHold(cs, t[0]) then [t[0]] + Select(t[1..], cs)
      else Select(t[1..], cs)
  }

  /** `SELECT * FROM todo WHERE id = <id>` with `database.get`: the first
      matching row. */
  function FindById(t: Table, id: int): (r: Option<Todo>)
    ensures r.Some? ==> r.value in t && r.value.id == id
    ensures r.None? <==> !HasId(t, id)
    decreases |t|
  {
    if t == [] then None
    else if t[0].id == id then Some(t[0])
    else
      var r := FindById(t[1..], id);
      assert HasId(t, id) ==> HasId(t[1..], id) by {
        if HasId(t, id) {
          var i :| 0 <= i < |t| && t[i].id == id;
          assert t[1..][i - 1].id == id;
        }
      }
      assert HasId(t[1..], id) ==> HasId(t, id) by {
        if HasId(t[1..], id) {
          var i :| 0 <= i < |t[1..]| && t[1..][i].id == id;
          assert t[i + 1].id == id;
        }
      }
      r
  }

  // ---------------------------------------------------------------------
  // INSERT, UPDATE, DELETE
  // ---------------------------------------------------------------------

  /** `INSERT INTO todo ... VALUES (...)`: adds the row, placed last in the
      model's row order; fails when the id
      is already taken. */
  function Insert(t: Table, row: Todo): (r: Option<Table>)
    ensures r.None? <==> HasId(t, row.id)
    ensures r.Some? ==> |r.value| == |t| + 1 && r.value[..|t|] == t && r.value[|t|] == row
    ensures r.Some? && UniqueIds(t) ==> UniqueIds(r.value)
  {
    if HasId(t, row.id) then None else Some(t + [row])
  }

  /** Rewrites column `col` of every row whose id is `id`. */
  function SetWhereId(t: Table, id: int, col: string, v: string): (r: Table)
    requires col in TextColumns
    ensures |r| == |t|
    ensures forall i :: 0 <= i < |t| && t[i].id != id ==> r[i] == t[i]
    ensures forall i :: 0 <= i < |t| && t[i].id == id ==> SetColumn(t[i], col, v) == Some(r[i])
    decreases |t|
  {
    if t == [] then []
    else
      var rest := SetWhereId(t[1..], id, col, v);
      var head := if t[0].id == id then SetColumn(t[0], col, v).value else t[0];
      [head] + rest
  }

  /** `UPDATE todo SET <col> = '<v>' WHERE id = <id>`. The statement fails
      to prepare (`None`) when `col` is not a column, whatever the rows; it
      otherwise changes exactly the matching rows and reports their number. */
  function UpdateWhereId(t: Table, id: int, col: string, v: string): (r: Option<Written>)
    ensures r.None? <==> col !in TextColumns
    ensures r.Some? ==> r.value.changes == CountId(t, id) && |r.value.table| == |t|
    ensures r.Some? ==> forall i :: 0 <= i < |t| ==>
      r.value.table[i].id == t[i].id &&
      (t[i].id != id ==> r.value.table[i] == t[i]) &&
      (t[i].id == id ==> Column(r.value.table[i], col) == Some(v))
    ensures r.Some? ==> forall i, c :: 0 <= i < |t| && c != col ==>
      Column(r.value.table[i], c) == Column(t[i], c)
  {
    if col !in TextColumns then None
    else Some(Written(SetWhereId(t, id, col, v), CountId(t, id)))
  }

  /** `DELETE FROM todo WHERE id = <id>`: drops the matching rows and reports
      how many were dropped. */
  function DeleteWhereId(t: Table, id: int): (r: Written)
    ensures r.changes == CountId(t, id)
    ensures |r.table| + r.changes == |t|
    ensures r.changes == 0 ==> r.table == t
    ensures forall x :: x in r.table <==> x in t && x.id != id
    ensures multiset(r.table) <= multiset(t)
    decreases |t|
  {
    if t == [] then Written([], 0)
    else
      var rest := DeleteWhereId(t[1..], id);
      assert t == [t[0]] + t[1..];
      if t[0].id == id then Written(rest.table, rest.changes + 1)
      else Written([t[0]] + rest.table, rest.changes)
  }

  /** The first row's id occurs nowhere else in a table with unique ids. */
  lemma HeadIdIsFresh(t: Table)
    requires t != [] && UniqueIds(t)
    ensures forall x :: x in t[1..] ==> x.id != t[0].id
  {
  }

  /** Prefixing a row whose id is fresh keeps ids unique. */
  lemma ConsPreservesUniqueIds(row: Todo, rest: Table)
    requires UniqueIds(rest)
    requires forall x :: x in rest ==> x.id != row.id
    ensures UniqueIds([row] + rest)
  {
  }

  /** A delete keeps the remaining ids unique. */
  lemma {:induction false} DeletePreservesUniqueIds(t: Table, id: int)
    requires UniqueIds(t)
    ensures UniqueIds(DeleteWhereId(t, id).table)
    decreases |t|
  {
    if t != [] {
      assert UniqueIds(t[1..]) by {
        forall i, j | 0 <= i < j < |t[1..]| ensures t[1..][i].id != t[1..][j].id {
          assert t[1..][i] == t[i + 1] && t[1..][j] == t[j + 1];
        }
      }
      DeletePreservesUniqueIds(t[1..], id);
      var rest := DeleteWhereId(t[1..], id).table;
      if t[0].id != id {
        HeadIdIsFresh(t);
        ConsPreservesUniqueIds(t[0], rest);
      }
    }
  }

  /** An update never changes an id, so ids stay unique. */
  lemma UpdatePreservesUniqueIds(t: Table, id: int, col: string, v: string)
    requires UniqueIds(t) && col in TextColumns
    ensures UpdateWhereId(t, id, col, v).Some?
    ensures UniqueIds(UpdateWhereId(t, id, col, v).value.table)
  {
  }
}
