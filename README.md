# CRUD services: student store, employee mapping, todo lookup

This project models the service layer of three small CRUD services and proves
properties of that model in Dafny.

- **Student API.** `StudentService` keeps every student in an in-memory hash map
  from id to student. A `long` counter hands out ids and starts at 1. Create stamps
  the counter's value on the student and advances the counter. Get returns the
  mapped student or null. Update forces the path id onto the student and puts it,
  whether or not the id existed. Delete removes the key and reports whether it was
  there. List returns the map's values in hash-map order.
  `student_service.dfy` states these operations twice:
  - as functions on a value `Store`, with lemmas about single calls and whole runs of calls;
  - as the class `StudentService`, whose methods update `studentMap` and `currentId`
    in place and are proved equal to those functions.
- **Employee app.** `EmployeeService` maps between the stored `Employee` and the wire
  form `EmployeeDto`. Both mappers copy the four fields and map null to null. The
  model proves round trips in both directions. It also models `getById`
  (find-or-throw), `getAllList` and `getByRole` (map over repository results) and
  `createDto` (save once, return the DTO of what was saved).
- **Todo app.** `TodoService` has a `toDto` projection with no null guard and a
  find-or-throw `getById`. Its `getTodoById` is an unimplemented stub that throws
  for every id.

Java's own behaviour lives in `java_base.dfy`:
- nullable references (`Option`) and thrown exceptions (`Result`);
- the `long` range and the wrap-around of `currentId++` at Long.MAX_VALUE;
- `double` as an opaque 64-bit pattern;
- the decimal text that `"..." + id` appends for a `Long`, with a parser that reads
  it back. The parser is what proves that a not-found message names its id.

A `HashMap` does not keep insertion order, so `GetAllStudents` lists the keys in an
unspecified order. The counter only guarantees fresh ids while every key is below it.
An update at or above the counter breaks that, and a later create then overwrites the
entry (`UpdateThenCreateLosesStudent`).

`TodoService` has two lookups by id. `getById` is find-or-throw. `getTodoById` is an
unimplemented stub that always throws UnsupportedOperationException. Both are modelled
as written.

## Model

| member | source | states |
|---|---|---|
| `JavaBase.Increment` | student-api/src/main/java/com/example/student_api/service/StudentService.java:15 | `currentId++` adds one below Long.MAX_VALUE and wraps to Long.MIN_VALUE at it |
| `JavaBase.LongToString` | EmployeeManagementApp/src/main/java/com/service/EmployeeService.java:30 | the decimal text appended for an id is non-empty, starts with '-' exactly for negative ids, and has no leading zero unless the id is 0 |
| `JavaBase.LongToStringRoundTrip` | EmployeeManagementApp/src/main/java/com/service/EmployeeService.java:30 | parsing the decimal text of any long gives back that long |
| `JavaBase.MessageNamesId` | todoapp/todoapp/src/main/java/com/example/todoapp/service/TodoService.java:61-62 | a message built as prefix + id yields exactly that id when read back |
| `JavaBase.MessageDistinguishesIds` | todoapp/todoapp/src/main/java/com/example/todoapp/service/TodoService.java:61-62 | two ids with the same not-found message are the same id |
| `StudentApi.Create` | student-api/src/main/java/com/example/student_api/service/StudentService.java:14-18 | the created student is the given one with only its id set to the old counter, the counter advances by one `long` increment, a lookup of that id returns the created student, and every other lookup is as before |
| `StudentApi.Get` | student-api/src/main/java/com/example/student_api/service/StudentService.java:24-26 | the lookup finds a student exactly when the id is a key, and then it is the student mapped to that id |
| `StudentApi.Update` | student-api/src/main/java/com/example/student_api/service/StudentService.java:28-32 | the stored student is the given one with only its id replaced by the path id, a lookup of that id returns it whether or not it existed, other lookups and the counter are unchanged |
| `StudentApi.Delete` | student-api/src/main/java/com/example/student_api/service/StudentService.java:34-36 | reports true exactly when the id was present; afterwards the id is absent, other lookups and the counter are unchanged |
| `StudentApi.CreateIsFresh` | student-api/src/main/java/com/example/student_api/service/StudentService.java:14-16 | if every key is below the counter, the new id was absent, the map grows by exactly one, and below Long.MAX_VALUE the invariant still holds |
| `StudentApi.CreateAtLongMaxWraps` | student-api/src/main/java/com/example/student_api/service/StudentService.java:12-15 | a create at Long.MAX_VALUE wraps the counter to Long.MIN_VALUE and breaks the invariant |
| `StudentApi.UpdateAtOrAboveCounterBreaksInvariant` | student-api/src/main/java/com/example/student_api/service/StudentService.java:28-30 | an update of an id at or above the counter leaves a key not below the counter |
| `StudentApi.CreateOverwritesWhenCounterIsKey` | student-api/src/main/java/com/example/student_api/service/StudentService.java:14-17 | when the counter's value is already a key, create does not grow the map and the student stored there disappears from it |
| `StudentApi.UpdateThenCreateLosesStudent` | student-api/src/main/java/com/example/student_api/service/StudentService.java:14-30 | on a new service, updateStudent(1, a) then createStudent(b) leaves only b with id 1: a is silently lost |
| `StudentApi.UpdateBelowCounterKeepsInvariant` | student-api/src/main/java/com/example/student_api/service/StudentService.java:28-31 | an update of an id already handed out keeps every key below the counter |
| `StudentApi.DeleteTwice` | student-api/src/main/java/com/example/student_api/service/StudentService.java:34-36 | delete keeps the invariant; a second delete of the same id reports false and changes nothing |
| `StudentApi.OperationsKeepIdsMatchKeys` | student-api/src/main/java/com/example/student_api/service/StudentService.java:14-36 | create, update and delete keep every stored student's id equal to its key |
| `StudentApi.RunAdvancesCounterByCreates` | student-api/src/main/java/com/example/student_api/service/StudentService.java:12-36 | over any run of calls without wrap-around, the counter ends exactly the number of creates above where it started: it never decreases and only create moves it |
| `StudentApi.RunKeepsKeysBelowCounter` | student-api/src/main/java/com/example/student_api/service/StudentService.java:12-36 | any run of creates, gets, lists, deletes and updates keeps every key below the counter, provided each update targets an id the counter had passed when that update ran (including one created earlier in the same run); so deleted ids are never reissued |
| `StudentApi.CreateAfterRunIsFresh` | student-api/src/main/java/com/example/student_api/service/StudentService.java:12-16 | after such a run from a new service, the next create hands out 1 + the number of creates, an id no stored student holds |
| `StudentApi.LifecycleNeverReusesId` | student-api/src/test/java/com/example/student_api/integration/StudentApiIntegrationTest.java:26-61 | the lifecycle create, get, update of the created id, list, delete is such a run: it leaves the store empty with counter 2, so the next create gets id 2, not the deleted id 1 |
| `StudentApi.StudentService.constructor` | student-api/src/main/java/com/example/student_api/service/StudentService.java:11-12 | a new service has an empty map and counter 1 |
| `StudentApi.StudentService.CreateStudent` | student-api/src/main/java/com/example/student_api/service/StudentService.java:14-18 | returns the student with id = old counter, puts it under that id, leaves all other entries, increments the counter, and agrees with `Create` |
| `StudentApi.StudentService.GetAllStudents` | student-api/src/main/java/com/example/student_api/service/StudentService.java:20-22 | returns one value per key, as many as the map holds, along a duplicate-free enumeration of all keys in unspecified order |
| `StudentApi.StudentService.GetStudentById` | student-api/src/main/java/com/example/student_api/service/StudentService.java:24-26 | returns the mapped student if the id is a key and null otherwise, changing nothing |
| `StudentApi.StudentService.UpdateStudent` | student-api/src/main/java/com/example/student_api/service/StudentService.java:28-32 | returns the student with the path id forced, puts it under that id (upsert), leaves the counter, and agrees with `Update` |
| `StudentApi.StudentService.DeleteStudent` | student-api/src/main/java/com/example/student_api/service/StudentService.java:34-36 | returns whether the id was a key, removes exactly that key, leaves the counter, and agrees with `Delete` |
| `EmployeeApp.ToDto` | EmployeeManagementApp/src/main/java/com/service/EmployeeService.java:38-46 | null maps to null; otherwise id, name, role and salary are copied unchanged |
| `EmployeeApp.ToEntity` | EmployeeManagementApp/src/main/java/com/service/EmployeeService.java:48-56 | null maps to null; otherwise id, name, role and salary are copied unchanged |
| `EmployeeApp.DtoRoundTrip` | EmployeeManagementApp/src/main/java/com/service/EmployeeService.java:38-56 | toDto(toEntity(d)) == d, null included |
| `EmployeeApp.EntityRoundTrip` | EmployeeManagementApp/src/main/java/com/service/EmployeeService.java:38-56 | toEntity(toDto(e)) == e, null included |
| `EmployeeApp.ToDtoInjective` | EmployeeManagementApp/src/main/java/com/service/EmployeeService.java:38-46 | distinct entities give distinct DTOs |
| `EmployeeApp.ToDtoList` | EmployeeManagementApp/src/main/java/com/service/EmployeeService.java:26 | the stream map yields one DTO per entity, in order, each equal to toDto of its entity |
| `EmployeeApp.GetAllList` | EmployeeManagementApp/src/main/java/com/service/EmployeeService.java:25-27 | as many DTOs as findAll rows, the i-th mapping back to the i-th row |
| `EmployeeApp.GetByRole` | EmployeeManagementApp/src/main/java/com/service/EmployeeService.java:34-36 | as many DTOs as findByRoleIgnoreCase rows, the i-th mapping back to the i-th row |
| `EmployeeApp.GetById` | EmployeeManagementApp/src/main/java/com/service/EmployeeService.java:29-32 | succeeds exactly when the id is stored, with a DTO that maps back to the stored employee; otherwise throws ResourceNotFound("Employee not found with id " + id) |
| `EmployeeApp.NotFoundMessageNamesId` | EmployeeManagementApp/src/main/java/com/service/EmployeeService.java:30 | getById's not-found message reads back as exactly the requested id |
| `EmployeeApp.CreateDto` | EmployeeManagementApp/src/main/java/com/service/EmployeeService.java:19-23 | the result, mapped back to an entity, is exactly what save returned for toEntity(dto) |
| `EmployeeApp.CreateDtoKeepsRequest` | EmployeeManagementApp/src/main/java/com/service/EmployeeService.java:19-23 | when save only fills in the id, createDto returns the request with that id, so the name is preserved |
| `TodoApp.ToDto` | todoapp/todoapp/src/main/java/com/example/todoapp/service/TodoService.java:46-52 | requires a non-null todo; copies id, title and completed exactly |
| `TodoApp.ToDtoInjective` | todoapp/todoapp/src/main/java/com/example/todoapp/service/TodoService.java:46-52 | distinct todos give distinct DTOs |
| `TodoApp.GetById` | todoapp/todoapp/src/main/java/com/example/todoapp/service/TodoService.java:59-63 | succeeds exactly when the id is stored, with the stored todo; otherwise throws TodoNotFound("Todo not found with ID " + id) |
| `TodoApp.NotFoundMessageNamesId` | todoapp/todoapp/src/main/java/com/example/todoapp/service/TodoService.java:61-62 | the not-found message is a TodoNotFound that reads back as exactly the requested id |
| `TodoApp.GetTodoById` | todoapp/todoapp/src/main/java/com/example/todoapp/service/TodoService.java:54-57 | throws UnsupportedOperationException for every id; it takes no store, so it consults none |
| `TodoApp.StubNeverFindsStoredTodo` | todoapp/todoapp/src/main/java/com/example/todoapp/service/TodoService.java:54-63 | for every stored id, getById finds the todo while getTodoById does not |

## Left out

- Controllers, Spring Data repository interfaces, pagination, the exception handler, and the security and OpenAPI configuration are framework wiring and are not modelled.
- The repository behind `EmployeeService` and `TodoService` is not modelled. `findById` is a map lookup. `findAll` and `findByRoleIgnoreCase` are given result lists. `save` is a function parameter. Id generation, `deleteById` and case-insensitive matching are the database's and are not modelled.
- `TodoService.getAll`, `save`, `getTodosPaginated`, `delete` and `searchTodos` each pass one call straight to the repository. With the repository left out, they have nothing of their own to model.
- Bean Validation (`@NotBlank`, `@Email`) runs before the services and is not modelled. Student name, email and course are modelled as non-null strings.
- Student ids in the service calls are non-null `Long`s. The controller's path variables are never null, so the `HashMap`'s null key is not modelled. A null student argument throws a NullPointerException in `setId`; it is not modelled either.
- StudentApi.StudentService.CreateStudent: the Java code mutates and stores the caller's `Student` object by reference. The model treats students as immutable values and returns the stamped copy, so aliasing between the caller's object and the stored one is not captured.
- StudentApi.StudentService.UpdateStudent: the Java code calls `setId` on the caller's object, which may already be stored under another key. That entry's id would then change too. With students as values, the model's "other entries unchanged" holds and this aliasing effect is not captured.
- StudentApi.StudentService.GetStudentById: the Java code returns the stored object itself, so a caller can change the stored student through it. The model returns a value.
- StudentApi.OperationsKeepIdsMatchKeys: holds only because students are values. In the Java code, an update that reuses an object already stored under another key changes that entry's id as well.
- StudentApi.StudentService.GetAllStudents: the `HashMap` iteration order is not modelled. The method picks keys in an unspecified order.
- Concurrency: the unsynchronised map and counter are modelled as single-threaded.
- EmployeeApp.CreateDto: takes a non-null DTO. For a null DTO, `toEntity` gives null and the repository's `save` rejects it. That path is the framework's and is not modelled.
- `salary` is a Java `double`. It is only ever copied, so it is modelled as an opaque 64-bit pattern with no arithmetic.
- The `Employee` entity class and the `TodoDTO` class are not part of this model. Their fields are taken from the setters and getters the services call.
- The `Todo.user` association refers to a `User` type that is not part of this model. It is left out of `Todo`.
