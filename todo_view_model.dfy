/** `TodoViewModel`: the todo screen's handlers over its `TodoState`.  Each
    launched coroutine runs to completion inside the handler that starts
    it; the clock readings it takes are parameters. */
module TodoScreen {
  import opened Wrappers
  import opened Text
  import opened Domain
  import opened Entities
  import opened Store
  import opened TodoRepo
  import opened UserRepo
  import opened Preferences
  import opened UseCases
  import opened TodoScreenState

  /** The todo `onAddTodo` builds from the state: the current user, the
      typed title, the selected category and the chosen due date, and
      every other property at its default. */
  function DraftTodo(s: TodoState, clockFirst: int, clockSecond: int): (t: Todo)
    ensures t.id == 0 && t.userId == s.currentUserId && t.title == s.newTodoTitle
    ensures t.category == s.selectedCategory && t.dueDate == s.newTodoDueDate
    ensures t.description == "" && !t.isCompleted
    ensures t.createdAt == clockFirst && t.updatedAt == clockSecond
  {
    NewTodo(s.currentUserId, s.newTodoTitle, s.selectedCategory, s.newTodoDueDate, clockFirst, clockSecond)
  }

  /** The state once `addTodoUseCase` has answered: success clears the
      title and the due date and keeps the category; failure shows the
      exception's message; nothing else changes. */
  function AfterAdd(s: TodoState, r: Result<int>): (s': TodoState)
    ensures s'.(newTodoTitle := s.newTodoTitle, newTodoDueDate := s.newTodoDueDate, error := s.error) == s
    ensures r.Success? ==> s'.newTodoTitle == "" && s'.newTodoDueDate.None? && s'.error == s.error
    ensures r.Failure? ==> s' == s.(error := r.message)
  {
    match r
    case Success(_) => s.(newTodoTitle := "", newTodoDueDate := None)
    case Failure(message) => s.(error := message)
  }

  /** The state once `updateTodoUseCase` has answered: success closes the
      edit dialog; failure shows the message and leaves the dialog open. */
  function AfterUpdate(s: TodoState, r: Result<()>): (s': TodoState)
    ensures s'.(showEditDialog := s.showEditDialog, editingTodo := s.editingTodo, error := s.error) == s
    ensures r.Success? ==> !s'.showEditDialog && s'.editingTodo.None? && s'.error == s.error
    ensures r.Failure? ==> s' == s.(error := r.message)
    ensures DialogConsistent(s) ==> DialogConsistent(s')
  {
    match r
    case Success(_) => s.(showEditDialog := false, editingTodo := None)
    case Failure(message) => s.(error := message)
  }

  /** Before a signed-in user's id has reached the state (`currentUserId`
      is still 0, which is never a row id), adding a todo with a title
      fails on the foreign key: the table is unchanged, the draft is kept
      and the error is shown. */
  lemma AddWithoutUserFails(t: Tables, s: TodoState, clockFirst: int, clockSecond: int)
    requires TablesValid(t)
    requires s.currentUserId !in t.users && !IsBlank(s.newTodoTitle)
    ensures var (r, t') := AddTodoOutcome(t, DraftTodo(s, clockFirst, clockSecond));
      && t' == t
      && AfterAdd(s, r) == s.(error := Some(ForeignKeyFailed))
  {
  }

  /** In particular, a title typed before the signed-in user's id has
      arrived (the state still at its defaults otherwise) is refused by the
      store and stays in the field. */
  lemma AddBeforeUserLoadedFails(t: Tables, title: string, clockFirst: int, clockSecond: int)
    requires TablesValid(t) && !IsBlank(title)
    ensures var s := DefaultTodoState().(newTodoTitle := title);
      var (r, t') := AddTodoOutcome(t, DraftTodo(s, clockFirst, clockSecond));
      && t' == t
      && AfterAdd(s, r) == s.(error := Some(ForeignKeyFailed))
  {
    AddWithoutUserFails(t, DefaultTodoState().(newTodoTitle := title), clockFirst, clockSecond);
  }

  /** After a successful add, the next list the repository emits for the
      current user holds the new todo under its generated id. */
  lemma AddedTodoIsListed(t: Tables, s: TodoState, clockFirst: int, clockSecond: int, rows: seq<TodoEntity>)
    requires TablesValid(t)
    requires AddTodoOutcome(t, DraftTodo(s, clockFirst, clockSecond)).0.Success?
    requires IsQueryResult(AddTodoOutcome(t, DraftTodo(s, clockFirst, clockSecond)).1.todos, s.currentUserId, AnyState, rows)
    ensures var id := AddTodoOutcome(t, DraftTodo(s, clockFirst, clockSecond)).0.value;
      exists i :: 0 <= i < |rows| && ToDomainModel(rows[i]) == Some(DraftTodo(s, clockFirst, clockSecond).(id := id))
  {
    var draft := DraftTodo(s, clockFirst, clockSecond);
    var (r, t') := AddTodoOutcome(t, draft);
    var row := t'.todos[r.value];
    assert Matches(row, s.currentUserId, AnyState);
    assert row in rows;
    var i :| 0 <= i < |rows| && rows[i] == row;
  }

  /** A list converted element by element from a query answer is newest
      first, and so is every tab of it. */
  lemma ListedNewestFirst(rows: seq<TodoEntity>, todos: seq<Todo>, completed: bool)
    requires SortedByCreatedDesc(rows)
    requires |todos| == |rows| && forall i :: 0 <= i < |rows| ==> ToDomainModel(rows[i]) == Some(todos[i])
    ensures NewestFirst(todos) && NewestFirst(Keep(todos, completed))
  {
    assert NewestFirst(todos) by {
      forall i, j | 0 <= i < j < |todos| ensures todos[i].createdAt >= todos[j].createdAt {
        assert rows[i].createdAt >= rows[j].createdAt;
      }
    }
    KeepNewestFirst(todos, completed);
  }

  class TodoViewModel {
    var state: TodoState
    const todoRepo: TodoRepository
    const userRepo: UserRepository
    const prefs: UserPreferences

    ghost predicate Valid()
      reads this, todoRepo, todoRepo.db, userRepo, userRepo.db, userRepo.prefs, prefs
    {
      && todoRepo.Valid() && userRepo.Valid()
      && todoRepo.db == userRepo.db && userRepo.prefs == prefs
      && DialogConsistent(state) && !state.isLoading
    }

    /** Starts from `TodoState()`, over the one Room database both
        repositories share; the first emission of the user id is
        `CollectUserId`. */
    constructor (todoRepo: TodoRepository, userRepo: UserRepository, prefs: UserPreferences)
      requires todoRepo.Valid() && userRepo.Valid() && todoRepo.db == userRepo.db && userRepo.prefs == prefs
      ensures this.todoRepo == todoRepo && this.userRepo == userRepo && this.prefs == prefs
      ensures state == DefaultTodoState() && Valid()
    {
      this.todoRepo := todoRepo;
      this.userRepo := userRepo;
      this.prefs := prefs;
      state := DefaultTodoState();
    }

    /** One emission of `loadTodos(userId)`: the repository's list replaces
        `todos`. */
    method LoadTodos(userId: int) returns (ghost rows: seq<TodoEntity>)
      requires Valid()
      modifies this
      ensures Valid()
      ensures state == old(state).(todos := state.todos)
      ensures IsQueryResult(todoRepo.db.todos, userId, AnyState, rows)
      ensures |state.todos| == |rows| && forall i :: 0 <= i < |rows| ==> ToDomainModel(rows[i]) == Some(state.todos[i])
    {
      var todos;
      todos, rows := todoRepo.GetTodosByUserId(userId);
      state := state.(todos := todos);
    }

    /** One emission of the `userId` flow in `loadCurrentUser`: with a
        signed-in id, record it, fetch that user, and load their todos. */
    method CollectUserId() returns (ghost rows: seq<TodoEntity>)
      requires Valid()
      modifies this
      ensures Valid()
      ensures prefs.UserId().None? ==> state == old(state)
      ensures prefs.UserId().Some? ==>
        var userId := prefs.UserId().value;
        && state == old(state).(currentUserId := userId, todos := state.todos,
                                currentUser := if userId in userRepo.db.users then Some(ToUser(userRepo.db.users[userId])) else None)
        && IsQueryResult(todoRepo.db.todos, userId, AnyState, rows)
        && |state.todos| == |rows| && forall i :: 0 <= i < |rows| ==> ToDomainModel(rows[i]) == Some(state.todos[i])
    {
      rows := [];
      var userId := prefs.UserId();
      if userId.Some? {
        state := state.(currentUserId := userId.value);
        var user := userRepo.GetUserById(userId.value);
        state := state.(currentUser := user);
        rows := LoadTodos(userId.value);
      }
    }

    method OnNewTodoTitleChange(title: string)
      requires Valid()
      modifies this
      ensures Valid() && state == old(state).(newTodoTitle := title)
    {
      state := state.(newTodoTitle := title);
    }

    method OnCategoryChange(category: TodoCategory)
      requires Valid()
      modifies this
      ensures Valid() && state == old(state).(selectedCategory := category)
    {
      state := state.(selectedCategory := category);
    }

    method OnDueDateChange(dueDate: Option<int>)
      requires Valid()
      modifies this
      ensures Valid() && state == old(state).(newTodoDueDate := dueDate)
    {
      state := state.(newTodoDueDate := dueDate);
    }

    method OnFilterChange(filter: TodoFilter)
      requires Valid()
      modifies this
      ensures Valid() && state == old(state).(currentFilter := filter)
    {
      state := state.(currentFilter := filter);
    }

    /** `onAddTodo`, with the two clock readings of the `Todo` defaults. */
    method OnAddTodo(clockFirst: int, clockSecond: int)
      requires Valid()
      modifies this, todoRepo.db
      ensures Valid()
      ensures var (r, t') := AddTodoOutcome(old(todoRepo.db.Snapshot()), DraftTodo(old(state), clockFirst, clockSecond));
        todoRepo.db.Snapshot() == t' && state == AfterAdd(old(state), r)
    {
      var newTodo := NewTodo(state.currentUserId, state.newTodoTitle, state.selectedCategory,
                             state.newTodoDueDate, clockFirst, clockSecond);
      var r := AddTodo(todoRepo, newTodo);
      match r
      case Success(_) =>
        state := state.(newTodoTitle := "", newTodoDueDate := None);
      case Failure(message) =>
        state := state.(error := message);
    }

    /** `onToggleTodo`, with the clock reading of the write. */
    method OnToggleTodo(todoId: int, now: int)
      requires Valid()
      modifies todoRepo.db
      ensures Valid()
      ensures todoRepo.db.Snapshot() == ToggleSpec(old(todoRepo.db.Snapshot()), todoId, now)
    {
      todoRepo.ToggleTodoCompletion(todoId, now);
    }

    /** `onDeleteTodo`. */
    method OnDeleteTodo(todoId: int)
      requires Valid()
      modifies todoRepo.db
      ensures Valid()
      ensures todoRepo.db.Snapshot() == DeleteTodoSpec(old(todoRepo.db.Snapshot()), todoId)
    {
      todoRepo.DeleteTodo(todoId);
    }

    /** `onEditTodo`: opens the dialog on that todo. */
    method OnEditTodo(todo: Todo)
      requires Valid()
      modifies this
      ensures Valid() && state == old(state).(showEditDialog := true, editingTodo := Some(todo))
    {
      state := state.(showEditDialog := true, editingTodo := Some(todo));
    }

    /** `onDismissEditDialog`. */
    method OnDismissEditDialog()
      requires Valid()
      modifies this
      ensures Valid() && state == old(state).(showEditDialog := false, editingTodo := None)
    {
      state := state.(showEditDialog := false, editingTodo := None);
    }

    /** `onUpdateTodo`, with the clock reading of `updatedAt`. */
    method OnUpdateTodo(todo: Todo, now: int)
      requires Valid()
      modifies this, todoRepo.db
      ensures Valid()
      ensures var (r, t') := UpdateTodoOutcome(old(todoRepo.db.Snapshot()), todo, now);
        todoRepo.db.Snapshot() == t' && state == AfterUpdate(old(state), r)
    {
      var r := UpdateTodo(todoRepo, todo, now);
      match r
      case Success(_) =>
        state := state.(showEditDialog := false, editingTodo := None);
      case Failure(message) =>
        state := state.(error := message);
    }

    /** `onLogout`: the logout use case clears the session's user id. */
    method OnLogout()
      requires Valid()
      modifies prefs
      ensures Valid()
      ensures prefs.UserId().None? && prefs.Language() == old(prefs.Language())
    {
      userRepo.ClearCurrentUserId();
    }

    method ClearError()
      requires Valid()
      modifies this
      ensures Valid() && state == old(state).(error := None)
    {
      state := state.(error := None);
    }

    /** `onLanguageChange`: stores the code as given. */
    method OnLanguageChange(languageCode: string)
      requires Valid()
      modifies prefs
      ensures Valid()
      ensures prefs.Language() == languageCode && prefs.UserId() == old(prefs.UserId())
    {
      prefs.SaveLanguage(languageCode);
    }
  }
}
