/** `TodoRepositoryImpl`: converts between `Todo` and `TodoEntity` and
    forwards each operation to the todo DAO. */
module TodoRepo {
  import opened Wrappers
  import opened Domain
  import opened Entities
  import opened Store

  /** `Todo.toEntity()`: the category is stored as its name, which
      `valueOf` reads back as the same category. */
  function ToEntity(t: Todo): (e: TodoEntity)
    ensures ValueOf(e.category) == Some(t.category)
    ensures e.id == t.id && e.userId == t.userId
  {
    ValueOfName(t.category);
    TodoEntity(t.id, t.userId, t.title, t.description, t.isCompleted, Name(t.category),
               t.dueDate, t.createdAt, t.updatedAt)
  }

  /** `TodoEntity.toDomainModel()`; None stands for the exception
      `TodoCategory.valueOf` throws on a stored name that is no category. */
  function ToDomainModel(e: TodoEntity): (r: Option<Todo>)
    ensures r.Some? <==> ValueOf(e.category).Some?
  {
    match ValueOf(e.category)
    case None => None
    case Some(c) =>
      Some(Todo(e.id, e.userId, e.title, e.description, e.isCompleted, c, e.dueDate, e.createdAt, e.updatedAt))
  }

  /** Storing a todo and reading it back gives the same todo, all nine
      fields included. */
  lemma RoundTrip(t: Todo)
    ensures ToDomainModel(ToEntity(t)) == Some(t)
  {
    ValueOfName(t.category);
  }

  /** The other direction: a row whose category is a name survives the
      conversion to a todo and back unchanged. */
  lemma EntityRoundTrip(e: TodoEntity)
    requires ValueOf(e.category).Some?
    ensures ToDomainModel(e).Some? && ToEntity(ToDomainModel(e).value) == e
  {
  }

  /** The row defaults of `TodoEntity` are the property defaults of `Todo`. */
  lemma DefaultsAgree(userId: int, title: string, clockFirst: int, clockSecond: int)
    ensures ToDomainModel(NewTodoEntity(userId, title, clockFirst, clockSecond))
         == Some(NewTodo(userId, title, PERSONAL, None, clockFirst, clockSecond))
  {
    ValueOfName(PERSONAL);
  }

  /** `entities.map { it.toDomainModel() }`: converts element by element,
      keeping length and order; fails if any element fails. */
  function MapToDomain(es: seq<TodoEntity>): (r: Option<seq<Todo>>)
    ensures r.Some? <==> forall i :: 0 <= i < |es| ==> ValueOf(es[i].category).Some?
    ensures r.Some? ==> |r.value| == |es| && forall i :: 0 <= i < |es| ==> ToDomainModel(es[i]) == Some(r.value[i])
  {
    if es == [] then Some([])
    else
      match (ToDomainModel(es[0]), MapToDomain(es[1..]))
      case (Some(t), Some(ts)) =>
        assert forall i :: 1 <= i < |es| ==> es[i] == es[1..][i - 1];
        Some([t] + ts)
      case (_, _) =>
        assert forall i :: 1 <= i < |es| ==> es[i] == es[1..][i - 1];
        None
  }

  /** Mapping a list of stored todos gives the list back. */
  lemma {:induction false} MapRoundTrip(ts: seq<Todo>)
    ensures MapToDomain(seq(|ts|, i requires 0 <= i < |ts| => ToEntity(ts[i]))) == Some(ts)
  {
    var es := seq(|ts|, i requires 0 <= i < |ts| => ToEntity(ts[i]));
    forall i | 0 <= i < |es| ensures ToDomainModel(es[i]) == Some(ts[i]) {
      RoundTrip(ts[i]);
    }
    var r := MapToDomain(es);
    assert r.Some?;
    assert r.value == ts;
  }

  /** Every category column holds a category name: true of every row the
      repository writes, so reads through the repository never fail. */
  ghost predicate CategoriesAreNames(todos: map<int, TodoEntity>) {
    forall k :: k in todos ==> ValueOf(todos[k].category).Some?
  }

  /** The row `toggleTodoCompletion` writes back. */
  function Toggled(e: TodoEntity, now: int): TodoEntity {
    e.(isCompleted := !e.isCompleted, updatedAt := now)
  }

  /** `toggleTodoCompletion(todoId)` with the clock reading `now`: an absent
      id changes nothing; otherwise the row's completion flips, its
      `updatedAt` becomes `now`, and nothing else changes. */
  function ToggleSpec(t: Tables, todoId: int, now: int): (t': Tables)
    requires TablesValid(t)
    ensures TablesValid(t')
    ensures todoId !in t.todos ==> t' == t
    ensures todoId in t.todos ==>
      && t'.todos == t.todos[todoId := t.todos[todoId].(isCompleted := !t.todos[todoId].isCompleted, updatedAt := now)]
      && t'.users == t.users && t'.nextUserId == t.nextUserId && t'.nextTodoId == t.nextTodoId
  {
    if todoId !in t.todos then t
    else UpdateTodoSpec(t, Toggled(t.todos[todoId], now)).1
  }

  /** Toggling twice restores the completion flag; only `updatedAt` keeps
      the second clock reading. */
  lemma ToggleTwice(t: Tables, todoId: int, now1: int, now2: int)
    requires TablesValid(t) && todoId in t.todos
    ensures ToggleSpec(ToggleSpec(t, todoId, now1), todoId, now2)
         == t.(todos := t.todos[todoId := t.todos[todoId].(updatedAt := now2)])
  {
    var e := t.todos[todoId];
    assert e.(isCompleted := !e.isCompleted, updatedAt := now1).(isCompleted := e.isCompleted, updatedAt := now2)
        == e.(updatedAt := now2);
  }

  /** What `insertTodo` stores can be read back by the id it returns: the
      same todo, with the generated id in place of the one given. */
  lemma InsertThenRead(t: Tables, todo: Todo)
    requires TablesValid(t)
    requires InsertTodoSpec(t, ToEntity(todo)).0.Success?
    ensures var (r, t') := InsertTodoSpec(t, ToEntity(todo));
      r.value in t'.todos && ToDomainModel(t'.todos[r.value]) == Some(todo.(id := r.value))
  {
    RoundTrip(todo.(id := InsertTodoSpec(t, ToEntity(todo)).0.value));
  }

  class TodoRepository {
    const db: Database

    ghost predicate Valid()
      reads this, db
    {
      db.Valid() && CategoriesAreNames(db.todos)
    }

    constructor (db: Database)
      requires db.Valid() && CategoriesAreNames(db.todos)
      ensures this.db == db && Valid()
    {
      this.db := db;
    }

    /** `getTodosByUserId` (one emission of its Flow): the DAO's answer,
        converted element by element. */
    method GetTodosByUserId(userId: int) returns (r: seq<Todo>, ghost rows: seq<TodoEntity>)
      requires Valid()
      ensures IsQueryResult(db.todos, userId, AnyState, rows)
      ensures |r| == |rows| && forall i :: 0 <= i < |r| ==> ToDomainModel(rows[i]) == Some(r[i])
    {
      var es := db.GetTodosByUserId(userId);
      rows := es;
      var converted := MapToDomain(es);
      assert forall i :: 0 <= i < |es| ==> es[i].id in db.todos && db.todos[es[i].id] == es[i];
      r := converted.value;
    }

    /** `getTodoById`. */
    method GetTodoById(todoId: int) returns (r: Option<Todo>)
      requires Valid()
      ensures r.Some? <==> todoId in db.todos
      ensures r.Some? ==> ToDomainModel(db.todos[todoId]) == r && r.value.id == todoId
    {
      var e := db.GetTodoById(todoId);
      if e.Some? {
        r := ToDomainModel(e.value);
      } else {
        r := None;
      }
    }

    /** `insertTodo`: stores the converted todo and returns the DAO's id;
        a constraint failure is the exception the DAO throws. */
    method InsertTodo(todo: Todo) returns (r: Result<int>)
      requires Valid()
      modifies db
      ensures Valid()
      ensures (r, db.Snapshot()) == InsertTodoSpec(old(db.Snapshot()), ToEntity(todo))
    {
      ValueOfName(todo.category);
      r := db.InsertTodo(ToEntity(todo));
    }

    /** `updateTodo`. */
    method UpdateTodo(todo: Todo) returns (r: Result<()>)
      requires Valid()
      modifies db
      ensures Valid()
      ensures (r, db.Snapshot()) == UpdateTodoSpec(old(db.Snapshot()), ToEntity(todo))
    {
      ValueOfName(todo.category);
      r := db.UpdateTodo(ToEntity(todo));
    }

    /** `deleteTodo`: an absent id leaves the table as it was. */
    method DeleteTodo(todoId: int)
      requires Valid()
      modifies db
      ensures Valid()
      ensures db.Snapshot() == DeleteTodoSpec(old(db.Snapshot()), todoId)
    {
      db.DeleteById(todoId);
    }

    /** `toggleTodoCompletion`: read the row, write it back flipped. */
    method ToggleTodoCompletion(todoId: int, now: int)
      requires Valid()
      modifies db
      ensures Valid()
      ensures db.Snapshot() == ToggleSpec(old(db.Snapshot()), todoId, now)
    {
      var e := db.GetTodoById(todoId);
      if e.None? {
        return;
      }
      var updated := Toggled(e.value, now);
      var written := db.UpdateTodo(updated);
    }
  }
}
