/** The domain types: `Todo`, `TodoCategory` and `User`. */
module Domain {
  import opened Wrappers

  /** The closed set of categories; their colours are presentation only. */
  datatype TodoCategory = WORK | PERSONAL | HEALTH

  /** `category.name`: the constant's declared name, an upper-case
      identifier; `ValueOfName` shows that no two constants share one. */
  function Name(c: TodoCategory): (s: string)
    ensures |s| > 0 && forall i :: 0 <= i < |s| ==> 'A' <= s[i] <= 'Z'
  {
    match c
    case WORK => "WORK"
    case PERSONAL => "PERSONAL"
    case HEALTH => "HEALTH"
  }

  /** `TodoCategory.valueOf(s)`; None stands for the IllegalArgumentException
      it throws when no constant has that exact name. */
  function ValueOf(s: string): (r: Option<TodoCategory>)
    ensures r.Some? ==> Name(r.value) == s
    ensures r.None? ==> forall c: TodoCategory :: Name(c) != s
  {
    if s == "WORK" then Some(WORK)
    else if s == "PERSONAL" then Some(PERSONAL)
    else if s == "HEALTH" then Some(HEALTH)
    else None
  }

  /** valueOf inverts name for every constant. */
  lemma ValueOfName(c: TodoCategory)
    ensures ValueOf(Name(c)) == Some(c)
  {
    match c
    case WORK =>
    case PERSONAL => assert Name(c) != "WORK";
    case HEALTH => assert Name(c) != "WORK" && Name(c) != "PERSONAL";
  }

  /** A task.  Timestamps and ids are Kotlin Longs (epoch milliseconds). */
  datatype Todo = Todo(
    id: int,
    userId: int,
    title: string,
    description: string,
    isCompleted: bool,
    category: TodoCategory,
    dueDate: Option<int>,
    createdAt: int,
    updatedAt: int)

  /** `Todo(userId = .., title = .., category = .., dueDate = ..)` with every
      other parameter at its default.  The two defaulted timestamps are two
      reads of the clock, `createdAt` first, given here as `clockFirst` and
      `clockSecond`. */
  function NewTodo(userId: int, title: string, category: TodoCategory, dueDate: Option<int>,
                   clockFirst: int, clockSecond: int): (t: Todo)
    ensures t.id == 0 && t.userId == userId && t.title == title
    ensures t.category == category && t.dueDate == dueDate
    ensures t.description == "" && !t.isCompleted
    ensures t.createdAt == clockFirst && t.updatedAt == clockSecond
    ensures clockFirst <= clockSecond ==> t.createdAt <= t.updatedAt
  {
    Todo(0, userId, title, "", false, category, dueDate, clockFirst, clockSecond)
  }

  /** A user as the domain sees it: there is no password or hash field. */
  datatype User = User(id: int, username: string, displayName: string, createdAt: int)
}
