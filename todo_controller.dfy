/** `TodoController` (POC.Api/Controllers/TodoController.cs): the HTTP
    actions over the Todo store. A mutating action runs its guards, then calls
    the store, and only after a successful mutation publishes one
    notification; an exception ends the action with a 500, and a mutation
    already committed stays. Each mutating action also returns, as a ghost
    result, the calls it made in order. The read actions have no `modifies`
    clause: they cannot publish, nor change either collaborator. Model
    validation is `TodoValid` applied to the bound todo. */
module TodoApi {
  import opened Common
  import opened Models
  import opened Ordering
  import opened MessageQueue
  import opened Todos
  import opened Http

  const CreatedQueue: string := "todo-created"
  const UpdatedQueue: string := "todo-updated"
  const DeletedQueue: string := "todo-deleted"
  const TodoMessageType: string := "todo"

  function CreatedContent(t: Todo): string
  {
    "New todo created: " + Interpolate(t.title)
  }

  function UpdatedContent(t: Todo): string
  {
    "Todo updated: " + Interpolate(t.title)
  }

  function DeletedContent(id: int): string
  {
    "Todo deleted with ID: " + IntToString(id)
  }

  /** The deletion notice names the deleted id: different ids give
      different texts. */
  lemma DeletedContentNamesId(a: int, b: int)
    requires DeletedContent(a) == DeletedContent(b)
    ensures a == b
  {
    var prefix := "Todo deleted with ID: ";
    assert IntToString(a) == DeletedContent(a)[|prefix|..];
    assert IntToString(b) == DeletedContent(b)[|prefix|..];
    IntToStringRoundTrip(a);
    IntToStringRoundTrip(b);
  }

  class TodoController {
    const todos: TodoService
    const queue: MessageQueueService

    ghost predicate Valid()
      reads todos, queue
    {
      todos.Valid() && queue.Valid()
    }

    constructor (todos: TodoService, queue: MessageQueueService)
      ensures this.todos == todos && this.queue == queue
    {
      this.todos := todos;
      this.queue := queue;
    }

    /** `GET api/todo`. */
    method GetTodos(dbDown: bool) returns (r: ActionResult<seq<Todo>>)
      ensures dbDown ==> r == InternalServerError
      ensures !dbDown ==> r.Ok? && SortedBy(r.value, NewestFirst) && multiset(r.value) == multiset(todos.rows)
    {
      var result := todos.GetAllTodos(dbDown);
      if result.Threw? {
        return InternalServerError;
      }
      return Ok(result.value);
    }

    /** `GET api/todo/{id}`. */
    method GetTodo(id: int, dbDown: bool) returns (r: ActionResult<Todo>)
      ensures dbDown ==> r == InternalServerError
      ensures !dbDown ==> (r == NotFound <==> forall j :: 0 <= j < |todos.rows| ==> todos.rows[j].id != id)
      ensures !dbDown && r != NotFound ==> r.Ok? && r.value in todos.rows && r.value.id == id
    {
      var result := todos.GetTodoById(id, dbDown);
      if result.Threw? {
        return InternalServerError;
      }
      if result.value.None? {
        return NotFound;
      }
      return Ok(result.value.value);
    }

    /** `POST api/todo`. */
    method CreateTodo(todo: Todo, now: Instant, dbDown: bool, env: PublishEnv)
      returns (r: ActionResult<Todo>, ghost steps: seq<Step>)
      requires Valid()
      modifies todos, queue, queue.client
      ensures Valid() && PublishesFollowStoreCalls(steps)
      ensures !TodoValid(todo) ==>
        r == InvalidModel && steps == [] && todos.Unchanged() && unchanged(queue, queue.client)
      ensures TodoValid(todo) && (dbDown || todo.id != 0) ==>
        r == InternalServerError && steps == [StoreCalled] && todos.Unchanged() && unchanged(queue, queue.client)
      ensures TodoValid(todo) && !dbDown && todo.id == 0 ==>
        var created := todo.(id := old(todos.nextIdentity), createdAt := now);
        var content := CreatedContent(created);
        && todos.rows == old(todos.rows) + [created] && todos.nextIdentity == old(todos.nextIdentity) + 1
        && steps == [StoreCalled, PublishCalled(CreatedQueue, content)]
        && queue.State() == AfterPublish(old(queue.State()), CreatedQueue, TextMessage(content, TodoMessageType, env.messageId, env.clock), env.createThrows, env.sendThrows)
        && r == if PublishSucceeds(old(queue.senders), old(queue.client.isClosed), CreatedQueue, env.createThrows, env.sendThrows)
                then Created(created) else InternalServerError
    {
      if !TodoValid(todo) {
        return InvalidModel, [];
      }
      ValidTodoFitsColumns(todo);
      steps := [StoreCalled];
      var created := todos.CreateTodo(todo, now, dbDown);
      if created.Threw? {
        return InternalServerError, steps;
      }
      var content := CreatedContent(created.value);
      steps := steps + [PublishCalled(CreatedQueue, content)];
      var status := Announce(CreatedQueue, content, env);
      if status.Faulted? {
        return InternalServerError, steps;
      }
      return Created(created.value), steps;
    }

    /** `PUT api/todo/{id}`. */
    method UpdateTodo(id: int, todo: Todo, now: Instant, dbDown: bool, env: PublishEnv)
      returns (r: ActionResult<Todo>, ghost steps: seq<Step>)
      requires Valid()
      modifies todos, queue, queue.client
      ensures Valid() && PublishesFollowStoreCalls(steps)
      ensures id != todo.id ==>
        r == BadRequest("ID mismatch") && steps == [] && todos.Unchanged() && unchanged(queue, queue.client)
      ensures id == todo.id && !TodoValid(todo) ==>
        r == InvalidModel && steps == [] && todos.Unchanged() && unchanged(queue, queue.client)
      ensures id == todo.id && TodoValid(todo) && (dbDown || old(todos.Find(id)).None?) ==>
        && r == (if dbDown then InternalServerError else NotFound)
        && steps == [StoreCalled] && todos.Unchanged() && unchanged(queue, queue.client)
      ensures id == todo.id && TodoValid(todo) && !dbDown && old(todos.Find(id)).Some? ==>
        var u := ApplyUpdate(old(todos.Find(id)).value, todo, now);
        var content := UpdatedContent(u);
        && todos.Find(id) == Some(u)
        && (forall k :: k != id ==> todos.Find(k) == old(todos.Find(k)))
        && todos.nextIdentity == old(todos.nextIdentity)
        && steps == [StoreCalled, PublishCalled(UpdatedQueue, content)]
        && queue.State() == AfterPublish(old(queue.State()), UpdatedQueue, TextMessage(content, TodoMessageType, env.messageId, env.clock), env.createThrows, env.sendThrows)
        && r == if PublishSucceeds(old(queue.senders), old(queue.client.isClosed), UpdatedQueue, env.createThrows, env.sendThrows)
                then Ok(u) else InternalServerError
    {
      if id != todo.id {
        return BadRequest("ID mismatch"), [];
      }
      if !TodoValid(todo) {
        return InvalidModel, [];
      }
      ValidTodoFitsColumns(todo);
      steps := [StoreCalled];
      var updated := todos.UpdateTodo(id, todo, now, dbDown);
      if updated.Threw? {
        return InternalServerError, steps;
      }
      if updated.value.None? {
        return NotFound, steps;
      }
      var stored := updated.value.value;
      var content := UpdatedContent(stored);
      steps := steps + [PublishCalled(UpdatedQueue, content)];
      var status := Announce(UpdatedQueue, content, env);
      if status.Faulted? {
        return InternalServerError, steps;
      }
      return Ok(stored), steps;
    }

    /** `DELETE api/todo/{id}`. */
    method DeleteTodo(id: int, dbDown: bool, env: PublishEnv) returns (r: ActionResult<()>, ghost steps: seq<Step>)
      requires Valid()
      modifies todos, queue, queue.client
      ensures Valid() && PublishesFollowStoreCalls(steps)
      ensures dbDown || old(todos.Find(id)).None? ==>
        && r == (if dbDown then InternalServerError else NotFound)
        && steps == [StoreCalled] && todos.Unchanged() && unchanged(queue, queue.client)
      ensures !dbDown && old(todos.Find(id)).Some? ==>
        && todos.Find(id).None?
        && (forall k :: k != id ==> todos.Find(k) == old(todos.Find(k)))
        && todos.nextIdentity == old(todos.nextIdentity)
        && steps == [StoreCalled, PublishCalled(DeletedQueue, DeletedContent(id))]
        && queue.State() == AfterPublish(old(queue.State()), DeletedQueue, TextMessage(DeletedContent(id), TodoMessageType, env.messageId, env.clock), env.createThrows, env.sendThrows)
        && r == if PublishSucceeds(old(queue.senders), old(queue.client.isClosed), DeletedQueue, env.createThrows, env.sendThrows)
                then NoContent else InternalServerError
    {
      steps := [StoreCalled];
      var deleted := todos.DeleteTodo(id, dbDown);
      if deleted.Threw? {
        return InternalServerError, steps;
      }
      if !deleted.value {
        return NotFound, steps;
      }
      var content := DeletedContent(id);
      steps := steps + [PublishCalled(DeletedQueue, content)];
      var status := Announce(DeletedQueue, content, env);
      if status.Faulted? {
        return InternalServerError, steps;
      }
      return NoContent, steps;
    }

    /** The notification an action sends after a successful mutation:
        `PublishMessageAsync(content, queueName, "todo")`. */
    method Announce(queueName: string, content: string, env: PublishEnv) returns (status: Status)
      requires queue.Valid()
      modifies queue`senders, queue`log, queue`published, queue.client`nextSerial
      ensures queue.Valid()
      ensures queue.State() == AfterPublish(old(queue.State()), queueName, TextMessage(content, TodoMessageType, env.messageId, env.clock),
                                            env.createThrows, env.sendThrows)
      ensures status == Succeeded <==> PublishSucceeds(old(queue.senders), old(queue.client.isClosed), queueName, env.createThrows, env.sendThrows)
    {
      status := queue.PublishText(content, queueName, TodoMessageType, env.messageId, env.clock, env.createThrows, env.sendThrows);
    }

    /** `GET api/todo/category/{category}`; `equalUnder` is the database's
        collation. */
    method GetTodosByCategory(category: string, dbDown: bool, equalUnder: (string, string) -> bool)
      returns (r: ActionResult<seq<Todo>>)
      ensures dbDown ==> r == InternalServerError
      ensures !dbDown ==> r.Ok? && SortedBy(r.value, NewestFirst)
      ensures !dbDown ==> forall t ::
        multiset(r.value)[t] == if t.category.Some? && equalUnder(t.category.value, category) then multiset(todos.rows)[t] else 0
    {
      var result := todos.GetTodosByCategory(category, dbDown, equalUnder);
      if result.Threw? {
        return InternalServerError;
      }
      return Ok(result.value);
    }

    /** `GET api/todo/pending`. */
    method GetPendingTodos(dbDown: bool) returns (r: ActionResult<seq<Todo>>)
      ensures dbDown ==> r == InternalServerError
      ensures !dbDown ==> r.Ok? && SortedBy(r.value, PendingOrder)
      ensures !dbDown ==> forall t :: multiset(r.value)[t] == if !t.done then multiset(todos.rows)[t] else 0
    {
      var result := todos.GetPendingTodos(dbDown);
      if result.Threw? {
        return InternalServerError;
      }
      return Ok(result.value);
    }
  }
}
