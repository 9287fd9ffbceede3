# A verified model of the Android todo list's data and domain layer

This project models, in Dafny, the core of a small Android todo application written in Kotlin (Room, DataStore, Hilt, Compose). It covers:

- the two Room tables and their DAOs: `users` with a unique username index, and `todos` with a cascading foreign key to `users` and auto-generated ids;
- the two repositories, including the password hashing;
- the session preferences;
- the four validating use cases;
- the todo screen's state;
- the three view models: todo, login and register.

The model is organised by the application's layers:

| file | module | models |
|---|---|---|
| `wrappers.dfy` | `Wrappers` | `Option`, and Kotlin's `Result` with a nullable failure message |
| `text.dfy` | `Text` | `isWhitespace`, `isBlank`, the username pattern `^[a-zA-Z0-9_]+$` |
| `hashing.dfy` | `Hashing` | `hashPassword`: SHA-256 as an abstract function, then lowercase `%02x` per signed byte |
| `domain.dfy` | `Domain` | `Todo`, `TodoCategory` (`name`/`valueOf`), `User` |
| `entities.dfy` | `Entities` | `TodoEntity`, `UserEntity` and their defaults |
| `store.dfy` | `Store` | the database: tables, schema invariant, `UserDao` and `TodoDao` |
| `todo_repository.dfy` | `TodoRepo` | `TodoRepositoryImpl` |
| `user_repository.dfy` | `UserRepo` | `UserRepositoryImpl` |
| `preferences.dfy` | `Preferences` | `UserPreferences` |
| `use_cases.dfy` | `UseCases` | register, login, add and update use cases |
| `todo_state.dfy` | `TodoScreenState` | `TodoState` and its derived lists and counts |
| `todo_view_model.dfy` | `TodoScreen` | `TodoViewModel` |
| `login_view_model.dfy` | `LoginScreen` | `LoginState`, `LoginViewModel` |
| `register_view_model.dfy` | `RegisterScreen` | `RegisterState`, `RegisterViewModel` |

How the model is built:

- **The database.** It is one class, `Store.Database`. It holds two maps from id to row and one AUTOINCREMENT counter per table. `Valid()` states the schema:
  - every row is keyed by its own non-zero id, which is below the counter;
  - usernames are unique;
  - every todo's `userId` names a user.
- **DAO writes.** Each write is a method whose postcondition equates the resulting tables with a pure specification function of the tables before the call (`InsertUserSpec`, `InsertTodoSpec`, `UpdateTodoSpec`, `DeleteTodoSpec`). Constraint violations follow SQLite's ABORT behaviour: the statement fails with SQLite's message and changes nothing.
- **Queries.** Each query is a method that walks the table. It returns exactly the matching rows, each once, newest first (`IsQueryResult`). Rows with equal `createdAt` come back in an order the contract leaves open.
- **Repositories, use cases and view models.** These are classes or methods over the database and the preferences. Each is specified by a pure function of the state before the call.
- **Inputs from outside.** Every clock reading (`System.currentTimeMillis`, the start of today) is a parameter. So are SHA-256 and `String.toByteArray` (the fields of `Hashing.Hasher`).
- **Coroutines.** Each `viewModelScope.launch` block runs to completion inside the handler that starts it. `onSuccess` callbacks become a returned `succeeded` flag.

## Model

All source paths are under `app/src/main/java/com/example/myapplication/`, written out in full below.

| member | source | states |
|---|---|---|
| `Domain.Name` | app/src/main/java/com/example/myapplication/data/repository/TodoRepositoryImpl.kt:70 | `category.name` is the constant's upper-case identifier; with `ValueOfName`, no two categories share a name |
| `Domain.ValueOf` | app/src/main/java/com/example/myapplication/data/repository/TodoRepositoryImpl.kt:56 | `valueOf` returns a category whose name is the string, and fails exactly when no category has that name |
| `Domain.ValueOfName` | app/src/main/java/com/example/myapplication/domain/model/TodoCategory.kt:5-9 | `valueOf(c.name) == c` for each of the three categories |
| `Domain.NewTodo` | app/src/main/java/com/example/myapplication/domain/model/Todo.kt:3-13 | a new `Todo` has id 0, empty description, not completed, the given user, title, category and due date; `createdAt` and `updatedAt` are the first and second clock readings, so with a non-decreasing clock `createdAt <= updatedAt` |
| `Entities.NewTodoEntity` | app/src/main/java/com/example/myapplication/data/local/entity/TodoEntity.kt:20-31 | row defaults: id 0, description "", not completed, category "PERSONAL", no due date; `createdAt` and `updatedAt` are the first and second clock readings, so `createdAt <= updatedAt` under a non-decreasing clock |
| `Entities.NewUserEntity` | app/src/main/java/com/example/myapplication/data/local/entity/UserEntity.kt:11-18 | a new user row has id 0 (to be generated), the given username, display name and password hash, and `createdAt` from the clock |
| `Store.InsertUserSpec` | app/src/main/java/com/example/myapplication/data/local/dao/UserDao.kt:10-11 | insert fails exactly on a taken explicit id or a taken username, and then changes nothing; otherwise one row is added under a fresh id above every existing one (for id 0), todos untouched; the schema invariant is kept |
| `Store.InsertTodoSpec` | app/src/main/java/com/example/myapplication/data/local/dao/TodoDao.kt:13-14 | insert fails exactly on a taken explicit id or a `userId` with no user, and then changes nothing; otherwise exactly one row is added under the returned fresh id, users untouched; invariant kept |
| `Store.UpdateTodoSpec` | app/src/main/java/com/example/myapplication/data/local/dao/TodoDao.kt:16-17 | update replaces only the row with the same id; an absent id changes nothing and is no error; on an existing row, a `userId` with no user fails the foreign key and changes nothing; invariant kept |
| `Store.DeleteTodoSpec` | app/src/main/java/com/example/myapplication/data/local/dao/TodoDao.kt:34-35 | the row with that id is gone, every other row is unchanged, nothing is added and neither AUTOINCREMENT counter moves; an absent id leaves the tables as they were |
| `Store.DeleteUserCascade` | app/src/main/java/com/example/myapplication/data/local/entity/TodoEntity.kt:10-16 | deleting a user removes exactly that user's todos and keeps all other rows, adding none; the foreign key still holds |
| `Store.UserRowsNeverChange` | app/src/main/java/com/example/myapplication/data/local/dao/UserDao.kt:8-18 | no DAO operation changes or removes a user row once it is inserted |
| `Store.UserNamed` | app/src/main/java/com/example/myapplication/data/local/dao/UserDao.kt:13-14 | the username lookup finds a row exactly when one has that exact username, and returns that row |
| `Store.UserNamedIs` | app/src/main/java/com/example/myapplication/data/local/entity/UserEntity.kt:9 | by the unique index, looking up a stored user's name returns that very user |
| `Store.QueriesPartition` | app/src/main/java/com/example/myapplication/data/local/dao/TodoDao.kt:25-32 | the active and completed answers are disjoint and together hold exactly the rows of the all-todos answer |
| `Store.QueryResultsArePermutations` | app/src/main/java/com/example/myapplication/data/local/dao/TodoDao.kt:25-26 | two answers of the same query differ at most in the order of rows |
| `Store.InsertByCreatedDesc` | app/src/main/java/com/example/myapplication/data/local/dao/TodoDao.kt:25-26 | inserting a row into a newest-first list keeps it newest first and adds just that row |
| `Store.Database.constructor` | app/src/main/java/com/example/myapplication/data/local/TodoDatabase.kt:10-18 | a fresh database holds no users and no todos and satisfies the schema invariant |
| `Store.Database.InsertUser` | app/src/main/java/com/example/myapplication/data/local/dao/UserDao.kt:10-11 | the tables after the call are those of `InsertUserSpec`, and the invariant is kept |
| `Store.Database.GetUserByUsername` | app/src/main/java/com/example/myapplication/data/local/dao/UserDao.kt:13-14 | the key scan returns the row with exactly that username, or none when there is none |
| `Store.Database.GetUserById` | app/src/main/java/com/example/myapplication/data/local/dao/UserDao.kt:16-17 | returns the row with that id, or none exactly when no row has it |
| `Store.Database.InsertTodo` | app/src/main/java/com/example/myapplication/data/local/dao/TodoDao.kt:13-14 | the tables after the call are those of `InsertTodoSpec` |
| `Store.Database.UpdateTodo` | app/src/main/java/com/example/myapplication/data/local/dao/TodoDao.kt:16-17 | the tables after the call are those of `UpdateTodoSpec` |
| `Store.Database.DeleteTodo` | app/src/main/java/com/example/myapplication/data/local/dao/TodoDao.kt:19-20 | `delete` matches on the primary key: the same tables as `deleteById` of the row's id |
| `Store.Database.DeleteById` | app/src/main/java/com/example/myapplication/data/local/dao/TodoDao.kt:34-35 | the tables after the call are those of `DeleteTodoSpec` |
| `Store.Database.GetTodoById` | app/src/main/java/com/example/myapplication/data/local/dao/TodoDao.kt:22-23 | returns the row with that id, or none exactly when no row has it |
| `Store.Database.Select` | app/src/main/java/com/example/myapplication/data/local/dao/TodoDao.kt:25-32 | the loop over the keys returns each matching row exactly once, no other row, ordered by `createdAt` descending |
| `Store.Database.GetTodosByUserId` | app/src/main/java/com/example/myapplication/data/local/dao/TodoDao.kt:25-26 | exactly the user's rows, each once, newest first |
| `Store.Database.GetActiveTodosByUserId` | app/src/main/java/com/example/myapplication/data/local/dao/TodoDao.kt:28-29 | exactly the user's uncompleted rows, each once, newest first |
| `Store.Database.GetCompletedTodosByUserId` | app/src/main/java/com/example/myapplication/data/local/dao/TodoDao.kt:31-32 | exactly the user's completed rows, each once, newest first |
| `Text.IsWhitespace` | app/src/main/java/com/example/myapplication/domain/usecase/LoginUserUseCase.kt:11-17 | `isWhitespace` (the character test behind `isBlank`) holds for space, tab, newline and carriage return, and for no letter, digit or underscore |
| `Text.IsBlank` | app/src/main/java/com/example/myapplication/domain/usecase/RegisterUserUseCase.kt:12 | `isBlank` holds for the empty string, and a blank string holds no letter, digit or underscore |
| `Text.MatchesUsernamePattern` | app/src/main/java/com/example/myapplication/domain/usecase/RegisterUserUseCase.kt:16 | a full match of `^[a-zA-Z0-9_]+$` is non-empty and holds no whitespace |
| `Text.PatternExcludesBlank` | app/src/main/java/com/example/myapplication/domain/usecase/RegisterUserUseCase.kt:12-18 | a username accepted by `^[a-zA-Z0-9_]+$` is never blank |
| `Hashing.HexByte` | app/src/main/java/com/example/myapplication/data/repository/UserRepositoryImpl.kt:89 | `%02x` of a signed byte is two lowercase hex digits whose value is the byte read as unsigned |
| `Hashing.Hex` | app/src/main/java/com/example/myapplication/data/repository/UserRepositoryImpl.kt:89 | the joined rendering has two lowercase hex digits per byte |
| `Hashing.Unhex` | app/src/main/java/com/example/myapplication/data/repository/UserRepositoryImpl.kt:89 | decoding a lowercase hex string gives half as many bytes |
| `Hashing.UnhexHex` | app/src/main/java/com/example/myapplication/data/repository/UserRepositoryImpl.kt:89 | decoding the rendering gives back the bytes |
| `Hashing.HexInjective` | app/src/main/java/com/example/myapplication/data/repository/UserRepositoryImpl.kt:89 | two byte strings render alike exactly when they are equal |
| `Hashing.HashPassword` | app/src/main/java/com/example/myapplication/data/repository/UserRepositoryImpl.kt:86-90 | the hash of any password is 64 characters from `[0-9a-f]` |
| `Hashing.SameHashIffSameDigest` | app/src/main/java/com/example/myapplication/data/repository/UserRepositoryImpl.kt:86-90 | two passwords hash alike exactly when their SHA-256 digests are equal |
| `TodoRepo.ToEntity` | app/src/main/java/com/example/myapplication/data/repository/TodoRepositoryImpl.kt:63-75 | `toEntity` keeps id and user, and stores the category as a name that `valueOf` reads back as the same category |
| `TodoRepo.ToDomainModel` | app/src/main/java/com/example/myapplication/data/repository/TodoRepositoryImpl.kt:49-61 | converting a row fails exactly when its category column is no category name |
| `TodoRepo.RoundTrip` | app/src/main/java/com/example/myapplication/data/repository/TodoRepositoryImpl.kt:49-75 | `toEntity` then `toDomainModel` gives back the todo in all nine fields |
| `TodoRepo.EntityRoundTrip` | app/src/main/java/com/example/myapplication/data/repository/TodoRepositoryImpl.kt:49-75 | a row whose category is a name converts to a todo and back unchanged |
| `TodoRepo.DefaultsAgree` | app/src/main/java/com/example/myapplication/data/local/entity/TodoEntity.kt:25-28 | the defaults of a row read back as the defaults of a `Todo` (category PERSONAL) |
| `TodoRepo.MapToDomain` | app/src/main/java/com/example/myapplication/data/repository/TodoRepositoryImpl.kt:17-19 | the list conversion keeps length and order, converting element by element; it fails exactly when some element's category is no name |
| `TodoRepo.MapRoundTrip` | app/src/main/java/com/example/myapplication/data/repository/TodoRepositoryImpl.kt:16-20 | converting a list of stored todos gives the list back |
| `TodoRepo.ToggleSpec` | app/src/main/java/com/example/myapplication/data/repository/TodoRepositoryImpl.kt:40-47 | toggling an absent id changes nothing; otherwise only that row changes: completion flipped, `updatedAt` = now |
| `TodoRepo.ToggleTwice` | app/src/main/java/com/example/myapplication/data/repository/TodoRepositoryImpl.kt:42-44 | toggling twice restores the completion flag; only `updatedAt` differs |
| `TodoRepo.InsertThenRead` | app/src/main/java/com/example/myapplication/data/repository/TodoRepositoryImpl.kt:26-29 | after `insertTodo`, the returned id holds the same todo with that id |
| `TodoRepo.TodoRepository.constructor` | app/src/main/java/com/example/myapplication/data/repository/TodoRepositoryImpl.kt:12-14 | the repository wraps the given DAO |
| `TodoRepo.TodoRepository.GetTodosByUserId` | app/src/main/java/com/example/myapplication/data/repository/TodoRepositoryImpl.kt:16-20 | the result is a DAO answer (the user's todos, each once, newest first) converted element by element |
| `TodoRepo.TodoRepository.GetTodoById` | app/src/main/java/com/example/myapplication/data/repository/TodoRepositoryImpl.kt:22-24 | the converted row with that id, or none exactly when there is none |
| `TodoRepo.TodoRepository.InsertTodo` | app/src/main/java/com/example/myapplication/data/repository/TodoRepositoryImpl.kt:26-29 | stores the converted todo as `InsertTodoSpec` does and returns its id; every stored category stays a name |
| `TodoRepo.TodoRepository.UpdateTodo` | app/src/main/java/com/example/myapplication/data/repository/TodoRepositoryImpl.kt:31-34 | writes the converted todo as `UpdateTodoSpec` does |
| `TodoRepo.TodoRepository.DeleteTodo` | app/src/main/java/com/example/myapplication/data/repository/TodoRepositoryImpl.kt:36-38 | deletes by id as `DeleteTodoSpec` does |
| `TodoRepo.TodoRepository.ToggleTodoCompletion` | app/src/main/java/com/example/myapplication/data/repository/TodoRepositoryImpl.kt:40-47 | the read-modify-write leaves the tables of `ToggleSpec` |
| `UserRepo.ToUser` | app/src/main/java/com/example/myapplication/data/repository/UserRepositoryImpl.kt:55-60 | the `User` built from a row keeps its id, and the row is that user plus its password hash (rebuilding the row from them gives it back) |
| `UserRepo.RegisterSpec` | app/src/main/java/com/example/myapplication/data/repository/UserRepositoryImpl.kt:16-43 | a taken username fails with "Username already exists" and inserts nothing; otherwise the row with the hashed password is stored under the next id and the returned user has that id, the names and the clock's `createdAt`; the user counter moves past the id, the todo counter and the todo rows stay |
| `UserRepo.LoginOutcome` | app/src/main/java/com/example/myapplication/data/repository/UserRepositoryImpl.kt:45-66 | "User not found" exactly when no row has the username; "Invalid password" exactly when the stored hash differs from the password's; otherwise the stored user without its hash |
| `UserRepo.LoginAfterRegister` | app/src/main/java/com/example/myapplication/data/repository/UserRepositoryImpl.kt:24-37 | after a successful `register(u, d, p)`, `login(u, p)` returns the same user, same id |
| `UserRepo.LoginChecksDigest` | app/src/main/java/com/example/myapplication/data/repository/UserRepositoryImpl.kt:50-53 | after registering, a login password is accepted exactly when its digest equals the registered password's |
| `UserRepo.RegisterTwiceConflicts` | app/src/main/java/com/example/myapplication/data/repository/UserRepositoryImpl.kt:19-22 | registering the same username again fails and changes nothing |
| `UserRepo.UserRepository.constructor` | app/src/main/java/com/example/myapplication/data/repository/UserRepositoryImpl.kt:11-14 | the repository wraps the given DAO, the preferences and the hash functions |
| `UserRepo.UserRepository.Register` | app/src/main/java/com/example/myapplication/data/repository/UserRepositoryImpl.kt:16-43 | the check-then-insert leaves the result and tables of `RegisterSpec` |
| `UserRepo.UserRepository.Login` | app/src/main/java/com/example/myapplication/data/repository/UserRepositoryImpl.kt:45-66 | returns `LoginOutcome` and writes nothing |
| `UserRepo.UserRepository.GetUserById` | app/src/main/java/com/example/myapplication/data/repository/UserRepositoryImpl.kt:68-76 | the user with that id, or none exactly when there is none |
| `UserRepo.UserRepository.SaveCurrentUserId` | app/src/main/java/com/example/myapplication/data/repository/UserRepositoryImpl.kt:78-80 | the session's user id reads the given id; the language is unchanged |
| `UserRepo.UserRepository.ClearCurrentUserId` | app/src/main/java/com/example/myapplication/data/repository/UserRepositoryImpl.kt:82-84 | the session's user id reads none; the language is unchanged |
| `Preferences.UserPreferences.UserId` | app/src/main/java/com/example/myapplication/data/local/datastore/UserPreferences.kt:19-21 | the `userId` flow reads the stored Long, and null exactly when the key is absent |
| `Preferences.UserPreferences.Language` | app/src/main/java/com/example/myapplication/data/local/datastore/UserPreferences.kt:23-25 | the `language` flow reads the stored code, and "zh" when the key is absent |
| `Preferences.UserPreferences.constructor` | app/src/main/java/com/example/myapplication/data/local/datastore/UserPreferences.kt:19-25 | with nothing stored, the user id reads none and the language reads "zh" |
| `Preferences.UserPreferences.SaveUserId` | app/src/main/java/com/example/myapplication/data/local/datastore/UserPreferences.kt:27-31 | the user id reads the value saved; the language is unchanged |
| `Preferences.UserPreferences.ClearUserId` | app/src/main/java/com/example/myapplication/data/local/datastore/UserPreferences.kt:33-37 | the key is removed, so the user id reads none; the language is unchanged |
| `Preferences.UserPreferences.SaveLanguage` | app/src/main/java/com/example/myapplication/data/local/datastore/UserPreferences.kt:39-43 | any string is stored and read back as the language; the user id is unchanged |
| `UseCases.RegisterValidation` | app/src/main/java/com/example/myapplication/domain/usecase/RegisterUserUseCase.kt:12-30 | each of the five messages is reported exactly when its check fails and all earlier ones pass; none exactly when all pass |
| `UseCases.LoginValidation` | app/src/main/java/com/example/myapplication/domain/usecase/LoginUserUseCase.kt:11-17 | "Username cannot be empty" exactly for a blank username; "Password cannot be empty" exactly for a non-blank username and a blank password |
| `UseCases.RegisterUserOutcome` | app/src/main/java/com/example/myapplication/domain/usecase/RegisterUserUseCase.kt:10-33 | a failed check is reported and the tables are untouched; once all checks pass, result and tables are exactly the repository's `register` (`RegisterSpec`), so "Username already exists" reaches the caller; success implies the new user row is stored with the password's hash |
| `UseCases.LoginUserOutcome` | app/src/main/java/com/example/myapplication/domain/usecase/LoginUserUseCase.kt:10-20 | a failed check is reported before any lookup; once both checks pass, the result is the repository's `login` (`LoginOutcome`) unchanged, so "User not found" and "Invalid password" reach the caller; success implies a non-blank password whose hash is the stored one |
| `UseCases.RegisteredUserCanLogIn` | app/src/main/java/com/example/myapplication/domain/usecase/LoginUserUseCase.kt:11-19 | a registration that passes the checks can log in with the same non-blank password and gets the same user |
| `UseCases.SixSpacesPassRegistration` | app/src/main/java/com/example/myapplication/domain/usecase/RegisterUserUseCase.kt:24-26 | a password of six spaces passes every registration check, yet the login checks reject it as blank |
| `UseCases.BlankPasswordLocksOut` | app/src/main/java/com/example/myapplication/domain/usecase/LoginUserUseCase.kt:15-17 | an account registered with a blank password can never log in with that password; only a different password with the same digest gets in |
| `UseCases.AddTodoOutcome` | app/src/main/java/com/example/myapplication/domain/usecase/AddTodoUseCase.kt:10-21 | a blank title fails with "Todo title cannot be empty" and writes nothing; otherwise the todo is inserted unchanged, and on success the returned id holds that todo |
| `UseCases.UpdateTodoOutcome` | app/src/main/java/com/example/myapplication/domain/usecase/UpdateTodoUseCase.kt:10-22 | a blank title fails and writes nothing; otherwise the result and tables are exactly `UpdateTodoSpec` of the todo with `updatedAt` set to now: an absent id is a silent success, an existing row with a `userId` that has no user fails the foreign key, and otherwise that todo replaces the row with its id; a failure writes nothing |
| `UseCases.RegisterUser` | app/src/main/java/com/example/myapplication/domain/usecase/RegisterUserUseCase.kt:10-33 | result and tables are those of `RegisterUserOutcome` |
| `UseCases.LoginUser` | app/src/main/java/com/example/myapplication/domain/usecase/LoginUserUseCase.kt:10-20 | returns `LoginUserOutcome` and writes nothing |
| `UseCases.AddTodo` | app/src/main/java/com/example/myapplication/domain/usecase/AddTodoUseCase.kt:10-21 | result and tables are those of `AddTodoOutcome` |
| `UseCases.UpdateTodo` | app/src/main/java/com/example/myapplication/domain/usecase/UpdateTodoUseCase.kt:10-22 | result and tables are those of `UpdateTodoOutcome` |
| `TodoScreenState.DefaultTodoState` | app/src/main/java/com/example/myapplication/presentation/todo/TodoState.kt:8-19 | `TodoState()` lists nothing, has the dialog closed with no todo, is not loading, shows no error, has an empty title, no due date, filter ALL, category PERSONAL, user id 0 and no user |
| `TodoScreenState.Keep` | app/src/main/java/com/example/myapplication/presentation/todo/TodoState.kt:24-25 | the filter keeps only todos with the requested flag and never lengthens the list |
| `TodoScreenState.KeepCounts` | app/src/main/java/com/example/myapplication/presentation/todo/TodoState.kt:24-25 | the filter keeps every todo with the flag as often as it occurs, and no other |
| `TodoScreenState.KeepConcat` | app/src/main/java/com/example/myapplication/presentation/todo/TodoState.kt:24-25 | filtering distributes over concatenation, so the original order is kept |
| `TodoScreenState.KeepNewestFirst` | app/src/main/java/com/example/myapplication/presentation/todo/TodoState.kt:24-25 | a newest-first list stays newest first when filtered |
| `TodoScreenState.FilteredTodos` | app/src/main/java/com/example/myapplication/presentation/todo/TodoState.kt:21-26 | ALL shows the list unchanged; ACTIVE only uncompleted and COMPLETED only completed todos, drawn from the list |
| `TodoScreenState.TabsPartition` | app/src/main/java/com/example/myapplication/presentation/todo/TodoState.kt:24-25 | the ACTIVE and COMPLETED tabs are disjoint and together hold every todo; their sizes sum to the list's |
| `TodoScreenState.CountCompleted` | app/src/main/java/com/example/myapplication/presentation/todo/TodoState.kt:40 | the count of completed todos is the size of the completed filter |
| `TodoScreenState.CompletedTasksCount` | app/src/main/java/com/example/myapplication/presentation/todo/TodoState.kt:39-40 | `completedTasksCount` equals the size of the COMPLETED tab |
| `TodoScreenState.CreatedSince` | app/src/main/java/com/example/myapplication/presentation/todo/TodoState.kt:36 | the filter keeps only todos created at or after the start of the day and never lengthens the list |
| `TodoScreenState.CreatedSinceCounts` | app/src/main/java/com/example/myapplication/presentation/todo/TodoState.kt:36 | that filter keeps every such todo as often as it occurs, and no other |
| `TodoScreenState.CountCreatedSince` | app/src/main/java/com/example/myapplication/presentation/todo/TodoState.kt:36 | the count is the number of todos created at or after the start of the day (the length of `CreatedSince`); it equals the list's length exactly when every todo is from today, and is 0 exactly when none is |
| `TodoScreenState.TodayTasksCount` | app/src/main/java/com/example/myapplication/presentation/todo/TodoState.kt:28-37 | `todayTasksCount` is the number of the state's todos created at or after the start of today, and so never exceeds the number of todos |
| `TodoScreenState.TodayCountAntitone` | app/src/main/java/com/example/myapplication/presentation/todo/TodoState.kt:36 | a later start of day never counts more todos |
| `TodoScreenState.DefaultStateIsEmpty` | app/src/main/java/com/example/myapplication/presentation/todo/TodoState.kt:8-19 | the default state lists and counts nothing, the dialog is closed with no todo, the filter is ALL and the category PERSONAL |
| `TodoScreen.DraftTodo` | app/src/main/java/com/example/myapplication/presentation/todo/TodoViewModel.kt:76-81 | the todo built by `onAddTodo` takes user, title, category and due date from the state; every other field is at its default |
| `TodoScreen.AfterAdd` | app/src/main/java/com/example/myapplication/presentation/todo/TodoViewModel.kt:83-90 | success clears title and due date and keeps the category; failure only sets the error to the message; nothing else changes |
| `TodoScreen.AfterUpdate` | app/src/main/java/com/example/myapplication/presentation/todo/TodoViewModel.kt:126-138 | success closes the dialog and drops the edited todo; failure only sets the error; the dialog invariant is kept |
| `TodoScreen.AddWithoutUserFails` | app/src/main/java/com/example/myapplication/presentation/todo/TodoViewModel.kt:74-92 | with no user behind `currentUserId`, adding a titled todo fails on the foreign key: tables unchanged, draft kept, error shown |
| `TodoScreen.AddBeforeUserLoadedFails` | app/src/main/java/com/example/myapplication/presentation/todo/TodoState.kt:18 | from the default state (user id 0, never a row id), adding a titled todo fails the same way |
| `TodoScreen.AddedTodoIsListed` | app/src/main/java/com/example/myapplication/presentation/todo/TodoViewModel.kt:50-56 | after a successful add, the next list emitted for the user holds the new todo under its generated id |
| `TodoScreen.ListedNewestFirst` | app/src/main/java/com/example/myapplication/presentation/todo/TodoViewModel.kt:52-53 | the list the screen receives is newest first, and so is each filtered tab of it |
| `TodoScreen.TodoViewModel.constructor` | app/src/main/java/com/example/myapplication/presentation/todo/TodoViewModel.kt:27 | the screen starts from the default `TodoState` |
| `TodoScreen.TodoViewModel.LoadTodos` | app/src/main/java/com/example/myapplication/presentation/todo/TodoViewModel.kt:50-56 | one emission replaces only `todos`, with the converted DAO answer for that user |
| `TodoScreen.TodoViewModel.CollectUserId` | app/src/main/java/com/example/myapplication/presentation/todo/TodoViewModel.kt:34-48 | with a saved id: sets `currentUserId`, the user with that id (or none) and that user's todos; without one, nothing changes |
| `TodoScreen.TodoViewModel.OnNewTodoTitleChange` | app/src/main/java/com/example/myapplication/presentation/todo/TodoViewModel.kt:58-60 | only the title changes |
| `TodoScreen.TodoViewModel.OnCategoryChange` | app/src/main/java/com/example/myapplication/presentation/todo/TodoViewModel.kt:62-64 | only the selected category changes |
| `TodoScreen.TodoViewModel.OnDueDateChange` | app/src/main/java/com/example/myapplication/presentation/todo/TodoViewModel.kt:66-68 | only the due date changes |
| `TodoScreen.TodoViewModel.OnFilterChange` | app/src/main/java/com/example/myapplication/presentation/todo/TodoViewModel.kt:70-72 | only the filter changes |
| `TodoScreen.TodoViewModel.OnAddTodo` | app/src/main/java/com/example/myapplication/presentation/todo/TodoViewModel.kt:74-92 | the draft goes through the add use case; the tables are those of `AddTodoOutcome` and the state is `AfterAdd` of its result |
| `TodoScreen.TodoViewModel.OnToggleTodo` | app/src/main/java/com/example/myapplication/presentation/todo/TodoViewModel.kt:94-98 | the tables are those of `ToggleSpec` |
| `TodoScreen.TodoViewModel.OnDeleteTodo` | app/src/main/java/com/example/myapplication/presentation/todo/TodoViewModel.kt:100-104 | the tables are those of `DeleteTodoSpec` |
| `TodoScreen.TodoViewModel.OnEditTodo` | app/src/main/java/com/example/myapplication/presentation/todo/TodoViewModel.kt:106-113 | opens the dialog on that todo and changes nothing else |
| `TodoScreen.TodoViewModel.OnDismissEditDialog` | app/src/main/java/com/example/myapplication/presentation/todo/TodoViewModel.kt:115-122 | closes the dialog, drops the edited todo, changes nothing else |
| `TodoScreen.TodoViewModel.OnUpdateTodo` | app/src/main/java/com/example/myapplication/presentation/todo/TodoViewModel.kt:124-140 | the tables are those of `UpdateTodoOutcome` and the state is `AfterUpdate` of its result |
| `TodoScreen.TodoViewModel.OnLogout` | app/src/main/java/com/example/myapplication/presentation/todo/TodoViewModel.kt:142-147 | the session's user id reads none; the language is kept |
| `TodoScreen.TodoViewModel.ClearError` | app/src/main/java/com/example/myapplication/presentation/todo/TodoViewModel.kt:149-151 | only the error is cleared |
| `TodoScreen.TodoViewModel.OnLanguageChange` | app/src/main/java/com/example/myapplication/presentation/todo/TodoViewModel.kt:153-158 | the language reads the given code; the user id is kept |
| `LoginScreen.DefaultLoginState` | app/src/main/java/com/example/myapplication/presentation/login/LoginState.kt:3-8 | `LoginState()` has empty username and password, is not loading and shows no error; these empty fields would be refused with "Username cannot be empty" |
| `LoginScreen.MessageOr` | app/src/main/java/com/example/myapplication/presentation/login/LoginViewModel.kt:51 | `message ?: fallback`: the exception's message when it has one, the fallback exactly when it has none |
| `LoginScreen.LoginSettled` | app/src/main/java/com/example/myapplication/presentation/login/LoginViewModel.kt:41-55 | loading ends and the fields are kept; failure shows the message or "Login failed" |
| `LoginScreen.LoginErrorShownIffFailed` | app/src/main/java/com/example/myapplication/presentation/login/LoginViewModel.kt:34-55 | after pressing login, an error is shown exactly when the login failed, and blank fields are reported by name |
| `LoginScreen.LoginViewModel.constructor` | app/src/main/java/com/example/myapplication/presentation/login/LoginState.kt:3-8 | the screen starts from the default `LoginState` |
| `LoginScreen.LoginViewModel.OnUsernameChange` | app/src/main/java/com/example/myapplication/presentation/login/LoginViewModel.kt:24-26 | sets the username and clears the error |
| `LoginScreen.LoginViewModel.OnPasswordChange` | app/src/main/java/com/example/myapplication/presentation/login/LoginViewModel.kt:28-30 | sets the password and clears the error |
| `LoginScreen.LoginViewModel.OnLogin` | app/src/main/java/com/example/myapplication/presentation/login/LoginViewModel.kt:32-57 | shows the loading state, then the settled state; logs in with the current fields; on success saves the user's id, on failure saves nothing |
| `RegisterScreen.DefaultRegisterState` | app/src/main/java/com/example/myapplication/presentation/register/RegisterState.kt:3-10 | `RegisterState()` has all four text fields empty, is not loading and shows no error; these empty fields would be refused by the username check first |
| `RegisterScreen.RegisterSettled` | app/src/main/java/com/example/myapplication/presentation/register/RegisterViewModel.kt:49-62 | loading ends and the fields are kept; failure shows the message or "Registration failed" |
| `RegisterScreen.RegisterThenLogin` | app/src/main/java/com/example/myapplication/presentation/register/RegisterViewModel.kt:42-53 | a successful registration with a non-blank password can log in from the login screen with no error shown |
| `RegisterScreen.RegisterViewModel.constructor` | app/src/main/java/com/example/myapplication/presentation/register/RegisterState.kt:3-10 | the screen starts from the default `RegisterState` |
| `RegisterScreen.RegisterViewModel.OnUsernameChange` | app/src/main/java/com/example/myapplication/presentation/register/RegisterViewModel.kt:22-24 | sets the username and clears the error |
| `RegisterScreen.RegisterViewModel.OnDisplayNameChange` | app/src/main/java/com/example/myapplication/presentation/register/RegisterViewModel.kt:26-28 | sets the display name and clears the error |
| `RegisterScreen.RegisterViewModel.OnPasswordChange` | app/src/main/java/com/example/myapplication/presentation/register/RegisterViewModel.kt:30-32 | sets the password and clears the error |
| `RegisterScreen.RegisterViewModel.OnConfirmPasswordChange` | app/src/main/java/com/example/myapplication/presentation/register/RegisterViewModel.kt:34-36 | sets the confirmation and clears the error |
| `RegisterScreen.RegisterViewModel.OnRegister` | app/src/main/java/com/example/myapplication/presentation/register/RegisterViewModel.kt:38-64 | shows the loading state, then the settled state; passes all four fields to the use case; the tables are those of `RegisterUserOutcome`; no session is saved |

## Left out

- Coroutines and flows. The model does not cover `viewModelScope.launch`, the re-emission of Room and DataStore flows after each write, or the `collect` loops that keep running. Each launched block runs to completion inside its handler. `LoadTodos` and `CollectUserId` model one emission each.
- Concurrency. Races between launched jobs are not modelled; each repository call is atomic. This covers the check-then-insert in `register` and the read-then-write in `toggleTodoCompletion`.
- Clocks. `System.currentTimeMillis` and the `Calendar` start of day are parameters, not computed.
- Hashing internals. SHA-256 (section 6.2 of FIPS 180-4) and the `String.toByteArray` charset are function parameters (`Hashing.Hasher`). Only the hex rendering is modelled.
- Pure delegations. `DeleteTodoUseCase`, `GetTodosUseCase`, `LogoutUseCase` and `GetCurrentUserUseCase` each forward one call, so the view model calls the repository or the preferences directly.
- `ToggleTodoCompletionUseCase`. This file is not part of this model; `OnToggleTodo` calls the repository's toggle directly.
- Compose UI, navigation, Hilt and Room wiring, and the activity's locale setup.
- Number widths. Kotlin `Long` ids, counters and timestamps are unbounded integers, and `Int` counts are `nat`. Overflow and the AUTOINCREMENT ceiling are not modelled.
- String lengths. Kotlin `String.length` counts UTF-16 code units; the model counts characters. The two differ only for characters outside the Basic Multilingual Plane.
- Whitespace. `isWhitespace` follows the JVM's fixed list of whitespace characters for one Unicode version. Changes to that list across JVM versions are not modelled.
- Constraint-failure messages. These are SQLite's own texts. Android's exception adds an error-code suffix, which is not modelled.
- Room conflict strategy. Only `OnConflictStrategy.ABORT`, the default, is modelled.
- Cascade delete. No DAO deletes users, so `Store.DeleteUserCascade` is a property of the schema and has no method.
- Query tie order. Rows with equal `createdAt` come back in an order the contract leaves open, as SQLite does; no id tie-break is assumed.
- Login and register buttons. The login screen enables its button only when both fields are non-blank (app/src/main/java/com/example/myapplication/presentation/login/LoginScreen.kt:119). The register screen enables its button only when all four fields are non-blank, the password included (app/src/main/java/com/example/myapplication/presentation/register/RegisterScreen.kt:144-148). That is UI, so `OnLogin` and `OnRegister` may be called with any fields, and the use cases' checks then apply. `UseCases.SixSpacesPassRegistration` and `UseCases.BlankPasswordLocksOut` hold at the use-case level; the shipped register screen keeps a blank password from reaching it.
- `TodoScreen.TodoViewModel.CollectUserId`: `GetCurrentUserUseCase` reads the saved id a second time. The model reads it once, which is the same when nothing writes between the two reads.
