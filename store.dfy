/** The Room database: the `users` and `todos` tables, the schema's
    constraints as an invariant, and the two DAOs (`UserDao`, `TodoDao`) as
    methods of one class, since the foreign key spans both tables. */
module Store {
  import opened Wrappers
  import opened Entities

  /** SQLite's messages for the constraint failures the model can raise
      (Android appends an error code to each). */
  const ForeignKeyFailed := "FOREIGN KEY constraint failed"
  const TodoIdTaken := "UNIQUE constraint failed: todos.id"
  const UserIdTaken := "UNIQUE constraint failed: users.id"
  const UsernameUnique := "UNIQUE constraint failed: users.username"

  /** The database content: both tables, keyed by primary key, and the
      AUTOINCREMENT counter of each (the next id it hands out). */
  datatype Tables = Tables(
    users: map<int, UserEntity>,
    nextUserId: int,
    todos: map<int, TodoEntity>,
    nextTodoId: int)

  /** Each user row sits under its own id, which is never 0 (0 asks for a
      generated id) and is below the counter. */
  ghost predicate UsersKeyed(users: map<int, UserEntity>, next: int) {
    forall k :: k in users ==> users[k].id == k && k != 0 && k < next
  }

  /** The unique index on `users.username` (exact, case-sensitive equality). */
  ghost predicate UniqueUsernames(users: map<int, UserEntity>) {
    forall a, b :: a in users && b in users && users[a].username == users[b].username ==> a == b
  }

  ghost predicate TodosKeyed(todos: map<int, TodoEntity>, next: int) {
    forall k :: k in todos ==> todos[k].id == k && k != 0 && k < next
  }

  /** The foreign key `todos.userId` references `users.id`. */
  ghost predicate ForeignKeysHold(todos: map<int, TodoEntity>, users: map<int, UserEntity>) {
    forall k :: k in todos ==> todos[k].userId in users
  }

  ghost predicate TablesValid(t: Tables) {
    && 1 <= t.nextUserId && 1 <= t.nextTodoId
    && UsersKeyed(t.users, t.nextUserId)
    && UniqueUsernames(t.users)
    && TodosKeyed(t.todos, t.nextTodoId)
    && ForeignKeysHold(t.todos, t.users)
  }

  /** Some user row has this username. */
  predicate UsernameTaken(users: map<int, UserEntity>, name: string) {
    exists k :: k in users && users[k].username == name
  }

  /** The id a row is stored under: 0 asks for the counter's next value. */
  function StoredId(requested: int, next: int): int {
    if requested == 0 then next else requested
  }

  /** AUTOINCREMENT never hands out an id at or below one already used. */
  function Advance(next: int, used: int): int {
    if used >= next then used + 1 else next
  }

  /** `UserDao.insert` (OnConflictStrategy.ABORT): the primary key is checked
      first, then the unique username index; a failure changes nothing. */
  function InsertUserSpec(t: Tables, e: UserEntity): (out: (Result<int>, Tables))
    requires TablesValid(t)
    ensures TablesValid(out.1)
    ensures out.0.Failure? <==> (e.id != 0 && e.id in t.users) || UsernameTaken(t.users, e.username)
    ensures out.0.Failure? ==> out.1 == t
    ensures out.0.Success? ==>
      var id := out.0.value;
      && id !in t.users
      && (e.id == 0 ==> id == t.nextUserId && forall k :: k in t.users ==> k < id)
      && (e.id != 0 ==> id == e.id)
      && out.1.users == t.users[id := e.(id := id)]
      && out.1.todos == t.todos && out.1.nextTodoId == t.nextTodoId
  {
    if e.id != 0 && e.id in t.users then (Fail(UserIdTaken), t)
    else if UsernameTaken(t.users, e.username) then (Fail(UsernameUnique), t)
    else
      var id := StoredId(e.id, t.nextUserId);
      (Success(id), t.(users := t.users[id := e.(id := id)], nextUserId := Advance(t.nextUserId, id)))
  }

  /** `TodoDao.insert` (OnConflictStrategy.ABORT): the primary key is checked
      first, the foreign key at the end of the statement. */
  function InsertTodoSpec(t: Tables, e: TodoEntity): (out: (Result<int>, Tables))
    requires TablesValid(t)
    ensures TablesValid(out.1)
    ensures out.0.Failure? <==> (e.id != 0 && e.id in t.todos) || e.userId !in t.users
    ensures out.0.Failure? ==> out.1 == t
    ensures out.0.Success? ==>
      var id := out.0.value;
      && id !in t.todos
      && (e.id == 0 ==> id == t.nextTodoId && forall k :: k in t.todos ==> k < id)
      && (e.id != 0 ==> id == e.id)
      && out.1.todos == t.todos[id := e.(id := id)]
      && out.1.users == t.users && out.1.nextUserId == t.nextUserId
  {
    if e.id != 0 && e.id in t.todos then (Fail(TodoIdTaken), t)
    else if e.userId !in t.users then (Fail(ForeignKeyFailed), t)
    else
      var id := StoredId(e.id, t.nextTodoId);
      (Success(id), t.(todos := t.todos[id := e.(id := id)], nextTodoId := Advance(t.nextTodoId, id)))
  }

  /** `TodoDao.update`: replaces the row with the same primary key.  No
      matching row is not an error; a userId without a user is. */
  function UpdateTodoSpec(t: Tables, e: TodoEntity): (out: (Result<()>, Tables))
    requires TablesValid(t)
    ensures TablesValid(out.1)
    ensures out.0.Failure? <==> e.id in t.todos && e.userId !in t.users
    ensures out.1.users == t.users && out.1.nextUserId == t.nextUserId && out.1.nextTodoId == t.nextTodoId
    ensures out.1.todos == if e.id in t.todos && out.0.Success? then t.todos[e.id := e] else t.todos
  {
    if e.id !in t.todos then (Success(()), t)
    else if e.userId !in t.users then (Fail(ForeignKeyFailed), t)
    else (Success(()), t.(todos := t.todos[e.id := e]))
  }

  /** `TodoDao.deleteById` (and `delete`, which matches on the primary key). */
  function DeleteTodoSpec(t: Tables, id: int): (t': Tables)
    requires TablesValid(t)
    ensures TablesValid(t')
    ensures id !in t'.todos && t'.users == t.users
    ensures t'.nextUserId == t.nextUserId && t'.nextTodoId == t.nextTodoId
    ensures forall k :: k in t.todos && k != id ==> k in t'.todos && t'.todos[k] == t.todos[k]
    ensures forall k :: k in t'.todos ==> k in t.todos
    ensures id !in t.todos ==> t' == t
  {
    t.(todos := t.todos - {id})
  }

  /** The `ON DELETE CASCADE` clause of the foreign key: removing a user row
      removes every todo row that references it.  No DAO in the application
      deletes users, so this is a property of the schema only. */
  function DeleteUserCascade(t: Tables, userId: int): (t': Tables)
    requires TablesValid(t)
    ensures TablesValid(t')
    ensures userId !in t'.users
    ensures forall k :: k in t'.todos ==> t'.todos[k].userId != userId
    ensures forall k :: k in t.todos && t.todos[k].userId != userId ==> k in t'.todos && t'.todos[k] == t.todos[k]
    ensures forall k :: k in t.users && k != userId ==> k in t'.users && t'.users[k] == t.users[k]
    ensures forall k :: k in t'.todos ==> k in t.todos
    ensures forall k :: k in t'.users ==> k in t.users
  {
    t.(users := t.users - {userId},
       todos := map k | k in t.todos && t.todos[k].userId != userId :: t.todos[k])
  }

  /** A user row present before is present after, unchanged. */
  ghost predicate UsersKept(t: Tables, t': Tables) {
    forall k :: k in t.users ==> k in t'.users && t'.users[k] == t.users[k]
  }

  /** `UserDao` has no update and no delete, and the todo operations do not
      touch `users`: once inserted, a user row never changes. */
  lemma UserRowsNeverChange(t: Tables, u: UserEntity, e: TodoEntity, id: int)
    requires TablesValid(t)
    ensures UsersKept(t, InsertUserSpec(t, u).1)
    ensures UsersKept(t, InsertTodoSpec(t, e).1)
    ensures UsersKept(t, UpdateTodoSpec(t, e).1)
    ensures UsersKept(t, DeleteTodoSpec(t, id))
  {
  }

  /** The row `SELECT * FROM users WHERE username = :username LIMIT 1`
      returns; by the unique index there is at most one. */
  ghost function UserNamed(users: map<int, UserEntity>, name: string): (r: Option<UserEntity>)
    requires forall k :: k in users ==> users[k].id == k
    ensures r.Some? <==> UsernameTaken(users, name)
    ensures r.Some? ==> r.value.id in users && users[r.value.id] == r.value && r.value.username == name
  {
    if UsernameTaken(users, name) then
      var k :| k in users && users[k].username == name;
      Some(users[k])
    else None
  }

  /** Under the unique index, the row found by name is the row of that name. */
  lemma UserNamedIs(users: map<int, UserEntity>, k: int)
    requires forall k :: k in users ==> users[k].id == k
    requires UniqueUsernames(users) && k in users
    ensures UserNamed(users, users[k].username) == Some(users[k])
  {
    assert UsernameTaken(users, users[k].username);
  }

  /** Which rows a `todos` query keeps besides the userId test. */
  datatype Completion = AnyState | OnlyActive | OnlyCompleted

  /** The WHERE clause of the three `todos` queries. */
  predicate Matches(e: TodoEntity, userId: int, q: Completion) {
    && e.userId == userId
    && match q
       case AnyState => true
       case OnlyActive => !e.isCompleted
       case OnlyCompleted => e.isCompleted
  }

  predicate Distinct<T(==)>(s: seq<T>) {
    forall i, j :: 0 <= i < j < |s| ==> s[i] != s[j]
  }

  /** `ORDER BY createdAt DESC`; the order of equal timestamps is unspecified. */
  predicate SortedByCreatedDesc(s: seq<TodoEntity>) {
    forall i, j :: 0 <= i < j < |s| ==> s[i].createdAt >= s[j].createdAt
  }

  /** `r` is an answer of the query: each matching row exactly once, newest
      first. */
  ghost predicate IsQueryResult(todos: map<int, TodoEntity>, userId: int, q: Completion, r: seq<TodoEntity>) {
    && (forall x :: x in r ==> x.id in todos && todos[x.id] == x && Matches(x, userId, q))
    && (forall k :: k in todos && Matches(todos[k], userId, q) ==> todos[k] in r)
    && Distinct(r)
    && SortedByCreatedDesc(r)
  }

  /** In a sequence without repetitions every element occurs once. */
  lemma {:induction false} DistinctCount<T>(s: seq<T>, x: T)
    requires Distinct(s)
    ensures multiset(s)[x] == if x in s then 1 else 0
  {
    if s != [] {
      assert s == [s[0]] + s[1..];
      assert Distinct(s[1..]) by {
        forall i, j | 0 <= i < j < |s[1..]| ensures s[1..][i] != s[1..][j] {
          assert s[1..][i] == s[i + 1] && s[1..][j] == s[j + 1];
        }
      }
      DistinctCount(s[1..], x);
      if x == s[0] {
        forall i | 0 <= i < |s[1..]| ensures s[1..][i] != x {
          assert s[1..][i] == s[i + 1];
        }
      }
    }
  }

  /** The active and the completed query split the user's query: together
      they hold exactly its rows, and no row is in both. */
  lemma QueriesPartition(todos: map<int, TodoEntity>, userId: int,
                         all: seq<TodoEntity>, active: seq<TodoEntity>, completed: seq<TodoEntity>)
    requires forall k :: k in todos ==> todos[k].id == k
    requires IsQueryResult(todos, userId, AnyState, all)
    requires IsQueryResult(todos, userId, OnlyActive, active)
    requires IsQueryResult(todos, userId, OnlyCompleted, completed)
    ensures multiset(all) == multiset(active) + multiset(completed)
    ensures multiset(active) * multiset(completed) == multiset{}
    ensures |all| == |active| + |completed|
  {
    forall x ensures multiset(all)[x] == multiset(active)[x] + multiset(completed)[x] {
      DistinctCount(all, x);
      DistinctCount(active, x);
      DistinctCount(completed, x);
      if x in all {
        assert todos[x.id] == x;
        if x.isCompleted { assert Matches(todos[x.id], userId, OnlyCompleted); }
        else { assert Matches(todos[x.id], userId, OnlyActive); }
      }
      if x in active || x in completed {
        assert todos[x.id] == x && Matches(todos[x.id], userId, AnyState);
      }
    }
    assert multiset(all) == multiset(active) + multiset(completed);
    forall x ensures (multiset(active) * multiset(completed))[x] == 0 {
      DistinctCount(active, x);
      DistinctCount(completed, x);
    }
    assert |multiset(all)| == |multiset(active)| + |multiset(completed)|;
  }

  /** Two answers to the same query hold the same rows; they can differ only
      in the order of rows with equal `createdAt`. */
  lemma QueryResultsArePermutations(todos: map<int, TodoEntity>, userId: int, q: Completion,
                                    r1: seq<TodoEntity>, r2: seq<TodoEntity>)
    requires IsQueryResult(todos, userId, q, r1) && IsQueryResult(todos, userId, q, r2)
    ensures multiset(r1) == multiset(r2) && |r1| == |r2|
  {
    forall x ensures multiset(r1)[x] == multiset(r2)[x] {
      DistinctCount(r1, x);
      DistinctCount(r2, x);
      if x in r1 { assert todos[x.id] in r2; }
      if x in r2 { assert todos[x.id] in r1; }
    }
    assert multiset(r1) == multiset(r2);
  }

  /** Places `e` after every row at least as new, keeping the order. */
  method InsertByCreatedDesc(r: seq<TodoEntity>, e: TodoEntity) returns (r': seq<TodoEntity>, pos: nat)
    requires SortedByCreatedDesc(r)
    ensures pos <= |r| && r' == r[..pos] + [e] + r[pos..]
    ensures SortedByCreatedDesc(r')
  {
    pos := 0;
    while pos < |r| && r[pos].createdAt >= e.createdAt
      invariant pos <= |r|
      invariant forall j :: 0 <= j < pos ==> r[j].createdAt >= e.createdAt
    {
      pos := pos + 1;
    }
    r' := r[..pos] + [e] + r[pos..];
    forall i, j | 0 <= i < j < |r'| ensures r'[i].createdAt >= r'[j].createdAt {
      if j == pos {
        assert r'[i] == r[i];
      } else if i == pos {
        assert r'[j] == r[j - 1] && r[pos].createdAt < e.createdAt;
      } else {
        var i0 := if i < pos then i else i - 1;
        var j0 := if j < pos then j else j - 1;
        assert r'[i] == r[i0] && r'[j] == r[j0] && i0 < j0;
      }
    }
  }

  class Database {
    var users: map<int, UserEntity>
    var nextUserId: int
    var todos: map<int, TodoEntity>
    var nextTodoId: int

    function Snapshot(): Tables
      reads this
    {
      Tables(users, nextUserId, todos, nextTodoId)
    }

    ghost predicate Valid()
      reads this
    {
      TablesValid(Snapshot())
    }

    /** A fresh, empty database. */
    constructor ()
      ensures Valid() && users == map[] && todos == map[]
    {
      users, nextUserId := map[], 1;
      todos, nextTodoId := map[], 1;
    }

    /** `UserDao.insert`. */
    method InsertUser(e: UserEntity) returns (r: Result<int>)
      requires Valid()
      modifies this
      ensures Valid()
      ensures (r, Snapshot()) == InsertUserSpec(old(Snapshot()), e)
    {
      if e.id != 0 && e.id in users {
        r := Fail(UserIdTaken);
        return;
      }
      var taken := GetUserByUsername(e.username);
      if taken.Some? {
        r := Fail(UsernameUnique);
        return;
      }
      var id := if e.id == 0 then nextUserId else e.id;
      users := users[id := e.(id := id)];
      if id >= nextUserId {
        nextUserId := id + 1;
      }
      r := Success(id);
    }

    /** `UserDao.getUserByUsername`: a scan of the table for that name. */
    method GetUserByUsername(name: string) returns (r: Option<UserEntity>)
      requires Valid()
      ensures r == UserNamed(users, name)
    {
      var keys := users.Keys;
      while keys != {}
        invariant keys <= users.Keys
        invariant forall k :: k in users && k !in keys ==> users[k].username != name
        decreases keys
      {
        assert exists k :: k in keys by {
          if forall k :: k !in keys {
            assert false;
          }
        }
        var k :| k in keys;
        if users[k].username == name {
          UserNamedIs(users, k);
          return Some(users[k]);
        }
        keys := keys - {k};
      }
      return None;
    }

    /** `UserDao.getUserById`: the row whose id column equals `userId`. */
    method GetUserById(userId: int) returns (r: Option<UserEntity>)
      requires Valid()
      ensures r.Some? <==> userId in users
      ensures r.Some? ==> r.value.id == userId && r.value == users[userId]
      ensures r.None? ==> forall k :: k in users ==> users[k].id != userId
    {
      r := if userId in users then Some(users[userId]) else None;
    }

    /** `TodoDao.insert`. */
    method InsertTodo(e: TodoEntity) returns (r: Result<int>)
      requires Valid()
      modifies this
      ensures Valid()
      ensures (r, Snapshot()) == InsertTodoSpec(old(Snapshot()), e)
    {
      if e.id != 0 && e.id in todos {
        r := Fail(TodoIdTaken);
      } else if e.userId !in users {
        r := Fail(ForeignKeyFailed);
      } else {
        var id := if e.id == 0 then nextTodoId else e.id;
        todos := todos[id := e.(id := id)];
        if id >= nextTodoId {
          nextTodoId := id + 1;
        }
        r := Success(id);
      }
    }

    /** `TodoDao.update`. */
    method UpdateTodo(e: TodoEntity) returns (r: Result<()>)
      requires Valid()
      modifies this
      ensures Valid()
      ensures (r, Snapshot()) == UpdateTodoSpec(old(Snapshot()), e)
    {
      r := Success(());
      if e.id in todos {
        if e.userId in users {
          todos := todos[e.id := e];
        } else {
          r := Fail(ForeignKeyFailed);
        }
      }
    }

    /** `TodoDao.delete`: Room deletes the row with the entity's primary key. */
    method DeleteTodo(e: TodoEntity)
      requires Valid()
      modifies this
      ensures Valid()
      ensures Snapshot() == DeleteTodoSpec(old(Snapshot()), e.id)
    {
      DeleteById(e.id);
    }

    /** `TodoDao.deleteById`. */
    method DeleteById(todoId: int)
      requires Valid()
      modifies this
      ensures Valid()
      ensures Snapshot() == DeleteTodoSpec(old(Snapshot()), todoId)
    {
      todos := todos - {todoId};
    }

    /** `TodoDao.getTodoById`: the row whose id column equals `todoId`. */
    method GetTodoById(todoId: int) returns (r: Option<TodoEntity>)
      requires Valid()
      ensures r.Some? <==> todoId in todos
      ensures r.Some? ==> r.value.id == todoId && r.value == todos[todoId]
      ensures r.None? ==> forall k :: k in todos ==> todos[k].id != todoId
    {
      r := if todoId in todos then Some(todos[todoId]) else None;
    }

    /** The three `SELECT ... ORDER BY createdAt DESC` queries: visits the
        rows in no particular order and inserts each matching row after the
        rows at least as new, so rows with equal timestamps come out in an
        unspecified order. */
    method Select(userId: int, q: Completion) returns (r: seq<TodoEntity>)
      requires Valid()
      ensures IsQueryResult(todos, userId, q, r)
    {
      r := [];
      var keys := todos.Keys;
      while keys != {}
        invariant keys <= todos.Keys
        invariant forall x :: x in r ==> x.id in todos && todos[x.id] == x && x.id !in keys && Matches(x, userId, q)
        invariant forall k :: k in todos && k !in keys && Matches(todos[k], userId, q) ==> todos[k] in r
        invariant Distinct(r)
        invariant SortedByCreatedDesc(r)
        decreases keys
      {
        assert exists k :: k in keys by {
          if forall k :: k !in keys {
            assert false;
          }
        }
        var k :| k in keys;
        var e := todos[k];
        if Matches(e, userId, q) {
          var r', pos := InsertByCreatedDesc(r, e);
          assert e !in r;
          forall i, j | 0 <= i < j < |r'| ensures r'[i] != r'[j] {
            if i == pos {
              assert r'[j] == r[j - 1];
            } else if j == pos {
              assert r'[i] == r[i];
            } else {
              var i0 := if i < pos then i else i - 1;
              var j0 := if j < pos then j else j - 1;
              assert r'[i] == r[i0] && r'[j] == r[j0] && i0 < j0;
            }
          }
          assert forall x :: x in r' <==> x in r || x == e;
          r := r';
        }
        keys := keys - {k};
      }
    }

    /** `TodoDao.getTodosByUserId` (one emission of its Flow). */
    method GetTodosByUserId(userId: int) returns (r: seq<TodoEntity>)
      requires Valid()
      ensures IsQueryResult(todos, userId, AnyState, r)
    {
      r := Select(userId, AnyState);
    }

    /** `TodoDao.getActiveTodosByUserId` (one emission of its Flow). */
    method GetActiveTodosByUserId(userId: int) returns (r: seq<TodoEntity>)
      requires Valid()
      ensures IsQueryResult(todos, userId, OnlyActive, r)
    {
      r := Select(userId, OnlyActive);
    }

    /** `TodoDao.getCompletedTodosByUserId` (one emission of its Flow). */
    method GetCompletedTodosByUserId(userId: int) returns (r: seq<TodoEntity>)
      requires Valid()
      ensures IsQueryResult(todos, userId, OnlyCompleted, r)
    {
      r := Select(userId, OnlyCompleted);
    }
  }
}
