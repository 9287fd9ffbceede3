/** The two Room row types.  The schema clauses (auto-generated keys, the
    unique username index, the cascading foreign key) are invariants of the
    store, in module Store. */
module Entities {
  import opened Wrappers

  /** A row of `todos`; the category is stored as its name. */
  datatype TodoEntity = TodoEntity(
    id: int,
    userId: int,
    title: string,
    description: string,
    isCompleted: bool,
    category: string,
    dueDate: Option<int>,
    createdAt: int,
    updatedAt: int)

  /** A row of `users`: only the password's hash is stored. */
  datatype UserEntity = UserEntity(
    id: int,
    username: string,
    displayName: string,
    passwordHash: string,
    createdAt: int)

  /** `TodoEntity(userId = .., title = ..)` with every other column at its
      default; the timestamps are two clock reads, `createdAt` first. */
  function NewTodoEntity(userId: int, title: string, clockFirst: int, clockSecond: int): (e: TodoEntity)
    ensures e.id == 0 && e.userId == userId && e.title == title
    ensures e.description == "" && !e.isCompleted && e.category == "PERSONAL" && e.dueDate == None
    ensures e.createdAt == clockFirst && e.updatedAt == clockSecond
    ensures clockFirst <= clockSecond ==> e.createdAt <= e.updatedAt
  {
    TodoEntity(0, userId, title, "", false, "PERSONAL", None, clockFirst, clockSecond)
  }

  /** `UserEntity(username = .., displayName = .., passwordHash = ..)`: the
      id is left for the store to generate and `createdAt` is the clock. */
  function NewUserEntity(username: string, displayName: string, passwordHash: string, clock: int): (e: UserEntity)
    ensures e.id == 0 && e.createdAt == clock
    ensures e.username == username && e.displayName == displayName && e.passwordHash == passwordHash
  {
    UserEntity(0, username, displayName, passwordHash, clock)
  }
}
