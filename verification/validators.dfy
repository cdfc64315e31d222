/** The field validators of app.js (isValidStatus, isValidPriority,
    isValidCategory, isValidDateFormat) and the closed set of todo fields
    that the request checks dispatch on. */
module Validators {
  import opened Common

  // ---------------------------------------------------------------------
  // Enumerated domains
  // ---------------------------------------------------------------------

  datatype TodoStatus = ToDo | InProgress | Done
  datatype TodoPriority = High | Medium | Low
  datatype TodoCategory = Work | Home | Learning

  /** The literal that stands for each status in requests and rows. */
  function StatusName(s: TodoStatus): string {
    match s
    case ToDo => "TO DO"
    case InProgress => "IN PROGRESS"
    case Done => "DONE"
  }

  function PriorityName(p: TodoPriority): string {
    match p
    case High => "HIGH"
    case Medium => "MEDIUM"
    case Low => "LOW"
  }

  function CategoryName(c: TodoCategory): string {
    match c
    case Work => "WORK"
    case Home => "HOME"
    case Learning => "LEARNING"
  }

  /** `["TO DO", "IN PROGRESS", "DONE"].includes(status)` */
  predicate IsValidStatus(s: string) {
    s in ["TO DO", "IN PROGRESS", "DONE"]
  }

  /** `["HIGH", "MEDIUM", "LOW"].includes(priority)` */
  predicate IsValidPriority(s: string) {
    s in ["HIGH", "MEDIUM", "LOW"]
  }

  /** `["WORK", "HOME", "LEARNING"].includes(category)` */
  predicate IsValidCategory(s: string) {
    s in ["WORK", "HOME", "LEARNING"]
  }

  /** The status validator accepts exactly the names of the three statuses. */
  lemma StatusValidatorIsEnumeration(s: string)
    ensures IsValidStatus(s) <==> exists st :: StatusName(st) == s
  {
    if s == "TO DO" { assert StatusName(ToDo) == s; }
    if s == "IN PROGRESS" { assert StatusName(InProgress) == s; }
    if s == "DONE" { assert StatusName(Done) == s; }
  }

  /** The priority validator accepts exactly the names of the three priorities. */
  lemma PriorityValidatorIsEnumeration(s: string)
    ensures IsValidPriority(s) <==> exists p :: PriorityName(p) == s
  {
    if s == "HIGH" { assert PriorityName(High) == s; }
    if s == "MEDIUM" { assert PriorityName(Medium) == s; }
    if s == "LOW" { assert PriorityName(Low) == s; }
  }

  /** The category validator accepts exactly the names of the three categories. */
  lemma CategoryValidatorIsEnumeration(s: string)
    ensures IsValidCategory(s) <==> exists c :: CategoryName(c) == s
  {
    if s == "WORK" { assert CategoryName(Work) == s; }
    if s == "HOME" { assert CategoryName(Home) == s; }
    if s == "LEARNING" { assert CategoryName(Learning) == s; }
  }

  // ---------------------------------------------------------------------
  // Date shape: the unanchored regular expression \d{4}-\d{2}-\d{2}
  // ---------------------------------------------------------------------

  /** `\d` without the unicode flag: an ASCII decimal digit. */
  predicate IsDigit(c: char) {
    '0' <= c <= '9'
  }

  /** The ten characters from index `i` read digit x4, '-', digit x2, '-', digit x2. */
  predicate DateShapeAt(s: string, i: int) {
    && 0 <= i && i + 10 <= |s|
    && IsDigit(s[i]) && IsDigit(s[i + 1]) && IsDigit(s[i + 2]) && IsDigit(s[i + 3])
    && s[i + 4] == '-'
    && IsDigit(s[i + 5]) && IsDigit(s[i + 6])
    && s[i + 7] == '-'
    && IsDigit(s[i + 8]) && IsDigit(s[i + 9])
  }

  /** The leftmost index at or after `from` where the date shape starts, as
      the regular-expression engine tries start positions left to right. */
  function FirstDateShape(s: string, from: nat): (r: Option<nat>)
    ensures r.Some? ==> from <= r.value && DateShapeAt(s, r.value)
    ensures r.Some? ==> forall j :: from <= j < r.value ==> !DateShapeAt(s, j)
    ensures r.None? ==> forall j :: from <= j ==> !DateShapeAt(s, j)
    decreases |s| - from
  {
    if from + 10 > |s| then None
    else if DateShapeAt(s, from) then Some(from)
    else FirstDateShape(s, from + 1)
  }

  /** `/\d{4}-\d{2}-\d{2}/.test(date)`: true exactly when the shape occurs
      anywhere in the string. It checks shape only, not calendar validity. */
  function IsValidDateFormat(d: string): (r: bool)
    ensures r <==> exists i :: DateShapeAt(d, i)
  {
    FirstDateShape(d, 0).Some?
  }

  // ---------------------------------------------------------------------
  // The todo fields a request can name
  // ---------------------------------------------------------------------

  /** The five writable fields of a todo, as named in request bodies. */
  datatype Field = TodoText | Status | Priority | Category | DueDate

  /** The validator each field's value must pass; the text has none. */
  predicate Accepts(f: Field, v: string) {
    match f
    case TodoText => true
    case Status => IsValidStatus(v)
    case Priority => IsValidPriority(v)
    case Category => IsValidCategory(v)
    case DueDate => IsValidDateFormat(v)
  }

  /** The 400 message for a value the field's validator rejects. */
  function InvalidMessage(f: Field): string
    requires f != TodoText
  {
    match f
    case Status => "Invalid Todo Status"
    case Priority => "Invalid Todo Priority"
    case Category => "Invalid Todo Category"
    case DueDate => "Invalid Due Date"
  }

  /** The update handler's success message, `${updateColumn} Updated`, where
      the label is "Todo", "Status", "Priority", "Category" or "Due Date". */
  function UpdatedMessage(f: Field): string {
    match f
    case TodoText => "Todo Updated"
    case Status => "Status Updated"
    case Priority => "Priority Updated"
    case Category => "Category Updated"
    case DueDate => "Due Date Updated"
  }

  /** The request-body key that names each field. */
  function Key(f: Field): string {
    match f
    case TodoText => "todo"
    case Status => "status"
    case Priority => "priority"
    case Category => "category"
    case DueDate => "dueDate"
  }

  /** The `switch (key)` of the update handler: which field a body key names. */
  function FieldOfKey(key: string): (r: Option<Field>)
    ensures r.Some? ==> Key(r.value) == key
    ensures r.None? ==> forall f :: Key(f) != key
  {
    match key
    case "status" => Some(Status)
    case "priority" => Some(Priority)
    case "todo" => Some(TodoText)
    case "category" => Some(Category)
    case "dueDate" => Some(DueDate)
    case _ => None
  }

  /** Only the text field accepts every value; every other field names a
      validator with a message of its own. */
  lemma OnlyTextIsUnchecked(f: Field)
    ensures (forall v :: Accepts(f, v)) <==> f == TodoText
  {
    if f != TodoText {
      assert !Accepts(f, "");
    }
  }
}
