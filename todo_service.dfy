/**
 * The todo service's own logic: the projection of a Todo to its wire form,
 * the find-or-throw lookup by id, and the lookup stub that always throws.
 * The repository is a map from id to stored todo.
 */
module TodoApp {
  import opened JavaBase

  /** A stored todo (its user association is not part of this model). */
  datatype Todo = Todo(id: Option<Long>, title: Option<string>, completed: bool)

  /** The wire form of a todo. */
  datatype TodoDto = TodoDto(id: Option<Long>, title: Option<string>, completed: bool)

  /** The exceptions the service throws. */
  datatype TodoError =
    | TodoNotFound(message: string)
    | UnsupportedOperation(message: string)

  const NotFoundPrefix: string := "Todo not found with ID "

  /**
   * toDto: a fresh DTO with the todo's id, title and completed flag. Unlike
   * the employee mapper it reads the todo's fields without a null check, so a
   * null todo is a NullPointerException: callers must pass a todo.
   */
  function ToDto(todo: Option<Todo>): (r: TodoDto)
    requires todo.Some?
    ensures r.id == todo.value.id && r.title == todo.value.title && r.completed == todo.value.completed
  {
    TodoDto(todo.value.id, todo.value.title, todo.value.completed)
  }

  /** The projection loses nothing that the model keeps: distinct todos give distinct DTOs. */
  lemma ToDtoInjective(a: Todo, b: Todo)
    requires ToDto(Some(a)) == ToDto(Some(b))
    ensures a == b
  {
  }

  /** getById: the stored todo, or TodoNotFound naming the id. */
  function GetById(repo: map<Long, Todo>, id: Long): (r: Result<Todo, TodoError>)
    ensures r.Ok? <==> id in repo
    ensures r.Ok? ==> r.value == repo[id]
    ensures r.Thrown? ==> r.error == TodoNotFound(NotFoundPrefix + LongToString(id))
  {
    if id in repo then Ok(repo[id])
    else Thrown(TodoNotFound(NotFoundPrefix + LongToString(id)))
  }

  /** The not-found message carries exactly the id that was asked for. */
  lemma NotFoundMessageNamesId(repo: map<Long, Todo>, id: Long)
    requires id !in repo
    ensures GetById(repo, id).error.TodoNotFound?
    ensures IdInMessage(NotFoundPrefix, GetById(repo, id).error.message) == Some(id)
  {
    MessageNamesId(NotFoundPrefix, id);
  }

  /** getTodoById: an unimplemented stub; it throws for every id and reads no store. */
  function GetTodoById(id: Long): (r: Result<Todo, TodoError>)
    ensures r.Thrown? && r.error.UnsupportedOperation?
  {
    Thrown(UnsupportedOperation("Unimplemented method 'getTodoById'"))
  }

  /**
   * The stub disagrees with getById on every stored todo: the lookup the
   * GET-by-id endpoint uses never finds what getById finds.
   */
  lemma StubNeverFindsStoredTodo(repo: map<Long, Todo>, id: Long)
    requires id in repo
    ensures GetById(repo, id).Ok? && GetTodoById(id) != GetById(repo, id)
  {
  }
}
