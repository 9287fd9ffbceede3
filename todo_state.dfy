/** `TodoState`: the todo screen's state and the lists and counts derived
    from it.  The start of the current day, which the source computes with
    `Calendar`, is a parameter. */
module TodoScreenState {
  import opened Wrappers
  import opened Domain

  /** The tabs over the list. */
  datatype TodoFilter = ALL | ACTIVE | COMPLETED

  datatype TodoState = TodoState(
    todos: seq<Todo>,
    currentFilter: TodoFilter,
    newTodoTitle: string,
    selectedCategory: TodoCategory,
    newTodoDueDate: Option<int>,
    isLoading: bool,
    error: Option<string>,
    showEditDialog: bool,
    editingTodo: Option<Todo>,
    currentUserId: int,
    currentUser: Option<User>)

  /** `TodoState()`: every property at its default.  The dialog is closed
      with no todo in it, nothing is loading, and the user id is 0, which
      the store never hands out. */
  function DefaultTodoState(): (s: TodoState)
    ensures DialogConsistent(s) && !s.showEditDialog && !s.isLoading
    ensures s.todos == [] && s.currentUserId == 0 && s.currentUser == None
    ensures s.error == None && s.newTodoTitle == "" && s.newTodoDueDate == None
    ensures s.currentFilter == ALL && s.selectedCategory == PERSONAL
  {
    TodoState([], ALL, "", PERSONAL, None, false, None, false, None, 0, None)
  }

  /** The edit dialog is open exactly when a todo is being edited. */
  predicate DialogConsistent(s: TodoState) {
    s.showEditDialog <==> s.editingTodo.Some?
  }

  /** `todos.filter { it.isCompleted == completed }`: the todos with that
      completion flag, each as often as in the input. */
  function Keep(todos: seq<Todo>, completed: bool): (r: seq<Todo>)
    ensures |r| <= |todos|
    ensures forall i :: 0 <= i < |r| ==> r[i].isCompleted == completed
  {
    if todos == [] then []
    else if todos[0].isCompleted == completed then [todos[0]] + Keep(todos[1..], completed)
    else Keep(todos[1..], completed)
  }

  /** The filter keeps every todo with that flag as often as it occurs,
      and no other. */
  lemma {:induction false} KeepCounts(todos: seq<Todo>, completed: bool)
    ensures forall t :: multiset(Keep(todos, completed))[t]
                     == if t.isCompleted == completed then multiset(todos)[t] else 0
  {
    if todos != [] {
      KeepCounts(todos[1..], completed);
      assert todos == [todos[0]] + todos[1..];
    }
  }

  /** Filtering distributes over concatenation, so it keeps the todos in
      their original relative order. */
  lemma {:induction false} KeepConcat(a: seq<Todo>, b: seq<Todo>, completed: bool)
    ensures Keep(a + b, completed) == Keep(a, completed) + Keep(b, completed)
  {
    if a == [] {
      assert a + b == b;
    } else {
      assert (a + b)[0] == a[0];
      assert (a + b)[1..] == a[1..] + b;
      KeepConcat(a[1..], b, completed);
    }
  }

  /** Newest first, as the list arrives from the store. */
  predicate NewestFirst(todos: seq<Todo>) {
    forall i, j :: 0 <= i < j < |todos| ==> todos[i].createdAt >= todos[j].createdAt
  }

  /** A list that is newest first stays newest first once filtered. */
  lemma {:induction false} KeepNewestFirst(todos: seq<Todo>, completed: bool)
    requires NewestFirst(todos)
    ensures NewestFirst(Keep(todos, completed))
  {
    if todos != [] {
      KeepNewestFirst(todos[1..], completed);
      var rest := Keep(todos[1..], completed);
      forall i | 0 <= i < |rest| ensures todos[0].createdAt >= rest[i].createdAt {
        KeepCounts(todos[1..], completed);
        assert rest[i] in multiset(rest);
        assert rest[i] in multiset(todos[1..]);
        var j :| 0 <= j < |todos[1..]| && todos[1..][j] == rest[i];
        assert todos[j + 1] == rest[i];
      }
    }
  }

  /** `filteredTodos`: the list the selected tab shows. */
  function FilteredTodos(s: TodoState): (r: seq<Todo>)
    ensures s.currentFilter == ALL ==> r == s.todos
    ensures s.currentFilter == ACTIVE ==> forall i :: 0 <= i < |r| ==> !r[i].isCompleted
    ensures s.currentFilter == COMPLETED ==> forall i :: 0 <= i < |r| ==> r[i].isCompleted
    ensures multiset(r) <= multiset(s.todos)
  {
    KeepCounts(s.todos, false);
    KeepCounts(s.todos, true);
    match s.currentFilter
    case ALL => s.todos
    case ACTIVE => Keep(s.todos, false)
    case COMPLETED => Keep(s.todos, true)
  }

  /** The ACTIVE and COMPLETED tabs share no todo and together show every
      todo of the list, each as often as it occurs. */
  lemma TabsPartition(s: TodoState)
    ensures var active := FilteredTodos(s.(currentFilter := ACTIVE));
            var completed := FilteredTodos(s.(currentFilter := COMPLETED));
      && multiset(active) + multiset(completed) == multiset(s.todos)
      && multiset(active) * multiset(completed) == multiset{}
      && |active| + |completed| == |s.todos|
  {
    var active := Keep(s.todos, false);
    var completed := Keep(s.todos, true);
    KeepCounts(s.todos, false);
    KeepCounts(s.todos, true);
    assert multiset(active) + multiset(completed) == multiset(s.todos) by {
      forall t ensures (multiset(active) + multiset(completed))[t] == multiset(s.todos)[t] {
      }
    }
    assert multiset(active) * multiset(completed) == multiset{} by {
      forall t ensures (multiset(active) * multiset(completed))[t] == multiset{}[t] {
      }
    }
    assert |multiset(active) + multiset(completed)| == |multiset(s.todos)|;
  }

  /** `todos.count { it.isCompleted }`. */
  function CountCompleted(todos: seq<Todo>): (n: nat)
    ensures n == |Keep(todos, true)|
  {
    if todos == [] then 0
    else (if todos[0].isCompleted then 1 else 0) + CountCompleted(todos[1..])
  }

  /** `completedTasksCount`. */
  function CompletedTasksCount(s: TodoState): (n: nat)
    ensures n == |FilteredTodos(s.(currentFilter := COMPLETED))|
  {
    CountCompleted(s.todos)
  }

  /** The todos created at or after `startOfDay`, in their order. */
  function CreatedSince(todos: seq<Todo>, startOfDay: int): (r: seq<Todo>)
    ensures |r| <= |todos|
    ensures forall i :: 0 <= i < |r| ==> r[i].createdAt >= startOfDay
  {
    if todos == [] then []
    else if todos[0].createdAt >= startOfDay then [todos[0]] + CreatedSince(todos[1..], startOfDay)
    else CreatedSince(todos[1..], startOfDay)
  }

  /** CreatedSince keeps every todo created since the start of the day as
      often as it occurs, and no other. */
  lemma {:induction false} CreatedSinceCounts(todos: seq<Todo>, startOfDay: int)
    ensures forall t :: multiset(CreatedSince(todos, startOfDay))[t]
                     == if t.createdAt >= startOfDay then multiset(todos)[t] else 0
  {
    if todos != [] {
      CreatedSinceCounts(todos[1..], startOfDay);
      assert todos == [todos[0]] + todos[1..];
    }
  }

  /** `todos.count { it.createdAt >= startOfDay }`: the number of todos
      created since the start of the day. */
  function CountCreatedSince(todos: seq<Todo>, startOfDay: int): (n: nat)
    ensures n == |CreatedSince(todos, startOfDay)|
    ensures n <= |todos|
    ensures n == |todos| <==> forall i :: 0 <= i < |todos| ==> todos[i].createdAt >= startOfDay
    ensures n == 0 <==> forall i :: 0 <= i < |todos| ==> todos[i].createdAt < startOfDay
  {
    if todos == [] then 0
    else
      assert forall i :: 1 <= i < |todos| ==> todos[i] == todos[1..][i - 1];
      (if todos[0].createdAt >= startOfDay then 1 else 0) + CountCreatedSince(todos[1..], startOfDay)
  }

  /** `todayTasksCount`, with the start of today given. */
  function TodayTasksCount(s: TodoState, startOfDay: int): (n: nat)
    ensures n == |CreatedSince(s.todos, startOfDay)|
    ensures n <= |s.todos|
  {
    CountCreatedSince(s.todos, startOfDay)
  }

  /** A later start of day never counts more todos. */
  lemma {:induction false} TodayCountAntitone(todos: seq<Todo>, earlier: int, later: int)
    requires earlier <= later
    ensures CountCreatedSince(todos, later) <= CountCreatedSince(todos, earlier)
  {
    if todos != [] {
      TodayCountAntitone(todos[1..], earlier, later);
    }
  }

  /** The screen before anything is loaded: nothing listed, nothing
      counted, the dialog closed. */
  lemma DefaultStateIsEmpty(startOfDay: int)
    ensures FilteredTodos(DefaultTodoState()) == []
    ensures CompletedTasksCount(DefaultTodoState()) == 0 && TodayTasksCount(DefaultTodoState(), startOfDay) == 0
    ensures DialogConsistent(DefaultTodoState()) && !DefaultTodoState().showEditDialog
    ensures DefaultTodoState().currentFilter == ALL && DefaultTodoState().selectedCategory == PERSONAL
  {
  }
}
