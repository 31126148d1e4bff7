# POC.Api: the message-queue service, the two stores and the CRUD controllers

This project models the core of POC.Api, an ASP.NET Core service. The
service keeps todos in a relational table (EF Core) and documents in a
MongoDB collection, and announces every successful change on an Azure
Service Bus queue. The model has three parts.

- **`MessageQueueService`** is a class with four fields: the sender cache
  (a `map` from queue name to sender handle), the `_disposed` flag, a ghost
  log of every call into the Service Bus SDK, and a ghost record of every
  publish. Its surroundings:
  - the `ServiceBusClient` it shares with the rest of the process is a
    class of its own, with `IsClosed` and a counter that tells created
    senders apart;
  - building the `ServiceBusMessage` (the *envelope*) is a loop over the
    message properties, proved equal to a reference function;
  - what the `ProcessMessageAsync` callback does with one delivery is a
    function from the decoded body and the outcomes of the handler and
    of the completion to the events it causes;
  - `Dispose` is a loop over the cached senders.
- **`TodoService` and `MongoService`** are classes that hold the
  sequence of stored records in storage order, with unique ids;
  `TodoService` also holds the next value of the identity column. Their
  lookup view is an id → record map (`Find`). `MongoService` stores each
  document with its instants cut to BSON's millisecond precision
  (`StoredForm`), while the caller gets its own object back to the tick. The queries are functions:
  a filter that keeps the order of the rows, then a sort by a total
  preorder. Create, update and delete are methods specified by that map:
  the record they touch changes, and every other id finds what it found
  before.
- **`TodoController` and `MongoController`** run their guards, call the
  store once, and only after a successful mutation publish exactly one
  notification with a fixed queue, type and content. An exception ends an
  action with a 500, and a mutation already made is not undone. Each
  mutating action also returns, as a ghost result, the calls it made in
  order. Every publish follows a store call, and an action that stops
  before the store, or whose store call fails or finds nothing, publishes
  nothing. The read actions have no `modifies` clause, so they cannot
  publish.

Things the code depends on but that are not part of it are parameters:
- the clock and `Guid.NewGuid()`;
- whether a database or SDK call throws (`dbDown`, `createThrows`,
  `sendThrows`, `closeThrows` and so on);
- the server's regular-expression match;
- string equality under the SQL database's collation (`equalUnder`);
- the outcome of model validation for `MongoDocument`.

The serializer is a pair of functions (`Serialize`, `Deserialize`).
`Deserialize` reads a serialized message back as that message. It also
tells apart the JSON literal `null` and text that is not a message.

Five behaviours of the code worth knowing:
- **Malformed body.** A body that does not deserialize makes
  `JsonSerializer.Deserialize` throw inside the callback's `try`, so the
  delivery is abandoned. Only a body that decodes to `null` is neither
  completed nor abandoned (`Consumer.Settle`).
- **Failed completion.** A completion that throws is caught by the same
  `catch`, and the delivery is then abandoned.
- **Publish failures are rethrown.** A failed publish is rethrown to the
  caller (modelled as `Faulted`, with no retry), not converted into a
  reported failure. `Source` is set only by the string overload.
- **Dispose closes the client.** `Dispose` disposes the shared client,
  which the service does not own (see Findings).
- **No id check in the document update.** `MongoController.UpdateDocument`
  has no id-mismatch check; the route's id wins.

## Model

| member | source | states |
|---|---|---|
| Common.AllWhiteSpace | POC.Api/Controllers/MongoController.cs:148 | true exactly when every character of the text is white space |
| Common.IsNullOrWhiteSpace | POC.Api/Controllers/MongoController.cs:148-151 | `string.IsNullOrWhiteSpace`: true exactly for null or for a text made of white space only |
| Common.NatToString | POC.Api/Controllers/TodoController.cs:135 | the decimal rendering is non-empty, all digits, and has no leading zero |
| Common.NatToStringRoundTrip | POC.Api/Controllers/TodoController.cs:135 | reading the decimal digits back gives the number |
| Common.IntToStringRoundTrip | POC.Api/Controllers/TodoController.cs:135 | `int.ToString()` (with its '-') reads back as the number, so different ids give different texts |
| Models.NewTodoDefaults | POC.Api/Models/Todo.cs:7-27 | a new `Todo` has priority 1, is not done, has `CreatedAt` = now, null title, description, category and `UpdatedAt`, and fails validation |
| Models.ValidTodoLimits | POC.Api/Models/Todo.cs:11-22 | a valid todo has a non-null, non-blank title of at most 200 characters and a description of at most 500 if any |
| Models.PriorityNotValidated | POC.Api/Models/Todo.cs:26 | validity does not depend on `Priority` or `Done`: the 1-5 scale is not enforced |
| Models.NewMongoDocumentDefaults | POC.Api/Models/Todo.cs:29-46 | a new document has a null id, empty `Metadata` and `Tags`, and `CreatedAt` = now |
| Models.NewMessageDefaults | POC.Api/Models/Todo.cs:48-61 | a new message has the generated id, type "info", empty properties, null source and `CreatedAt` = now |
| Table.IndexOf | POC.Api/Services/TodoService.cs:71 | the position of the first row with the key, or none exactly when no row has it |
| Table.Lookup | POC.Api/Services/TodoService.cs:38-40 | `FirstOrDefault` by key: a found row is stored and has the key; null exactly when no row has it |
| Table.LookupFindsRow | POC.Api/Services/TodoService.cs:38-40 | with unique keys, looking up the key of row i finds row i |
| Table.LookupAfterAppend | POC.Api/Services/TodoService.cs:53-55 | appending a row with a new key keeps keys unique; the new key finds it and every other key finds what it found before |
| Table.LookupAfterReplace | POC.Api/Services/TodoService.cs:77-84 | replacing a row by one with the same key keeps keys unique; that key finds the new row, every other key is unaffected |
| Table.LookupAfterRemove | POC.Api/Services/TodoService.cs:100-110 | removing a row keeps keys unique; its key finds nothing, every other key is unaffected |
| Table.RemoveRow | POC.Api/Services/TodoService.cs:100-110 | removing row i takes out exactly that row (multiset minus one) and keeps the rest |
| Ordering.Filter | POC.Api/Services/TodoService.cs:123-127 | `Where`: each element satisfying the predicate as often as in the input, and no other |
| Ordering.SortBy | POC.Api/Services/TodoService.cs:22-25 | `OrderByDescending` and friends: the result is sorted by the preorder and is a permutation of the input |
| Ordering.SortedFilter | POC.Api/Services/TodoService.cs:140-145 | a filtered and sorted query is sorted, holds exactly the matching elements with their multiplicity, and nothing else |
| ServiceBus.Deserialize | POC.Api/Services/MessageQueueService.cs:79-80 | null exactly for the JSON literal `null`; throws exactly for text that is not a message |
| ServiceBus.ServiceBusClient.constructor | POC.Api/Program.cs:25-29 | the process-wide client starts open |
| EnvelopeBuilder.BuildEnvelope | POC.Api/Services/MessageQueueService.cs:27-40 | message id, subject = type, content type "application/json", TTL seven days, a body that reads back as the message, and application properties with exactly the keys and values of `Properties`; equal to `EnvelopeFor` |
| EnvelopeBuilder.EnvelopeRoundTrip | POC.Api/Services/MessageQueueService.cs:27-28 | the body of the envelope for m deserializes to m |
| Consumer.Settle | POC.Api/Services/MessageQueueService.cs:77-93 | per delivery: the handler runs once exactly when the body decodes; at most one completion and one abandon; a successful completion exactly when it decodes and neither handler nor completion throws; an abandon exactly when the body is malformed or the handler or completion throws; no events exactly for a `null` body |
| Consumer.SettleCompleted | POC.Api/Services/MessageQueueService.cs:82-85 | a decoded delivery whose handler and completion succeed: handler call, then successful completion, nothing else |
| Consumer.SettleHandlerThrew | POC.Api/Services/MessageQueueService.cs:84-92 | a handler that throws: handler call, then abandon, never a completion |
| Consumer.RunPrefix | POC.Api/Services/MessageQueueService.cs:71 | with one call at a time, the events of the first deliveries are a prefix of the events of the run |
| Consumer.SettleInRun | POC.Api/Services/MessageQueueService.cs:71 | every event of one delivery appears in the events of the run |
| Consumer.HandlerAlwaysSucceeds | POC.Api/Services/MessageQueueService.cs:75-94 | a handler that always succeeds: every delivery completed, no abandon, one handler call per delivery |
| Consumer.HandlerAlwaysThrows | POC.Api/Services/MessageQueueService.cs:75-94 | a handler that always throws: every delivery abandoned, none completed, and the handler still runs once per delivery |
| MessageQueue.TextMessage | POC.Api/Services/MessageQueueService.cs:55-60 | the string overload's message: the given content and type, source "POC.Api", the fresh id and clock, no properties |
| MessageQueue.CloseEach | POC.Api/Services/MessageQueueService.cs:156-167 | the close loop closes every cached sender exactly once, whatever earlier closes did |
| MessageQueue.PublishKeepsOtherSenders | POC.Api/Services/MessageQueueService.cs:141-150 | a publish records itself; a sender is cached for its queue exactly when it was cached or can be created; a cached handle is kept; the other queues' entries are unchanged |
| MessageQueue.PublishSendsOnce | POC.Api/Services/MessageQueueService.cs:21-51 | a publish only appends to the log; it sends exactly once, through the sender cached for the queue, when one is cached or can be created, and otherwise not at all; it creates a sender only for its queue and only when none was cached |
| MessageQueue.MessageQueueService.constructor | POC.Api/Services/MessageQueueService.cs:15-19 | an empty cache, not disposed, nothing logged |
| MessageQueue.MessageQueueService.GetOrCreateSender | POC.Api/Services/MessageQueueService.cs:141-150 | a cached name returns its handle with no SDK call; an uncached one makes one creation attempt and caches the new handle; the returned handle is the one cached under the name; the other entries are unchanged |
| MessageQueue.MessageQueueService.PublishMessage | POC.Api/Services/MessageQueueService.cs:21-51 | the new state is `AfterPublish` of the old one; it succeeds exactly when a sender is cached or can be created and the send does not throw |
| MessageQueue.MessageQueueService.PublishCached | POC.Api/Services/MessageQueueService.cs:25-50 | with a cached sender: one send through it, cache and client unchanged, failure exactly when the send throws |
| MessageQueue.MessageQueueService.PublishUncached | POC.Api/Services/MessageQueueService.cs:25-50 | without one: one creation attempt, a send only if it succeeded, failure when either throws |
| MessageQueue.MessageQueueService.Send | POC.Api/Services/MessageQueueService.cs:42 | one send of `EnvelopeFor(message)` through the given sender, failing exactly when it throws |
| MessageQueue.MessageQueueService.PublishText | POC.Api/Services/MessageQueueService.cs:53-63 | delegates `TextMessage(content, type)` to the canonical overload with the same queue name |
| MessageQueue.MessageQueueService.StartConsuming | POC.Api/Services/MessageQueueService.cs:65-110 | the processor is created with one call at a time and no auto-completion, then started; a failure to create or start is the caller's failure |
| MessageQueue.MessageQueueService.ProcessMessage | POC.Api/Services/MessageQueueService.cs:75-94 | one callback appends exactly the events `Settle` gives and changes nothing else |
| MessageQueue.MessageQueueService.IsHealthy | POC.Api/Services/MessageQueueService.cs:112-123 | healthy exactly when the client is not closed and asking does not throw |
| MessageQueue.MessageQueueService.CreateQueue | POC.Api/Services/MessageQueueService.cs:125-139 | always succeeds, with no SDK call and no state change |
| MessageQueue.MessageQueueService.Dispose | POC.Api/Services/MessageQueueService.cs:152-181 | the first call closes every cached sender once, empties the cache, disposes the client (which ends closed even when its disposal throws) and sets the flag; later calls change nothing, the cache, log and epoch included |
| MessageQueue.MessageQueueService.DisposeOwned | POC.Api/Services/MessageQueueService.cs:152-168 | the corrected disposal: the same sender closes and cache clear, and the client is untouched |
| MessageQueue.MessageQueueService.CloseSenders | POC.Api/Services/MessageQueueService.cs:156-168 | every cached sender is closed once, then the cache is empty |
| MessageQueue.LookupTwice | POC.Api/Services/MessageQueueService.cs:141-150 | a second lookup of a name returns the same handle, and exactly one sender was created for the name |
| MessageQueue.PublishedMessageIsHandled | POC.Api/Services/MessageQueueService.cs:27-85 | what is published reaches the handler as the same message, and is completed when the handler and completion succeed |
| Hosting.ScopeAsWritten | POC.Api/Services/MessageQueueService.cs:170-177 | a scope ending with `Dispose` leaves the shared client closed, whatever the sender closes and the client's disposal do |
| Hosting.ScopeCorrected | POC.Api/Services/MessageQueueService.cs:152-168 | a scope ending with `DisposeOwned` leaves the client as it was, whatever the sender closes do |
| Hosting.TwoScopesAsWritten | POC.Api/Program.cs:25-34 | with the code as written, the second of two request scopes fails to publish, and `IsHealthyAsync` (behind `GET api/messagequeue/health`) reports unhealthy |
| Hosting.TwoScopesCorrected | POC.Api/Program.cs:25-34 | with the corrected disposal, both publishes succeed and `IsHealthyAsync` reports healthy |
| Hosting.ManyScopesAsWritten | POC.Api/Program.cs:25-34 | with the code as written, of any number of publishing scopes in a row only the first publish succeeds, and the client ends closed, whatever the disposals do |
| Hosting.ManyScopesCorrected | POC.Api/Program.cs:25-34 | with the corrected disposal, every publish of any number of scopes succeeds and the shared client stays open |
| Documents.MongoService.constructor | POC.Api/Services/MongoService.cs:11-16 | an empty collection |
| Documents.MongoService.Find | POC.Api/Services/MongoService.cs:40-42 | the document whose id is the given one, or none exactly when no document has it |
| Documents.MongoService.GetAllDocuments | POC.Api/Services/MongoService.cs:18-34 | every document, newest first (a permutation of the collection) |
| Documents.MongoService.GetDocumentById | POC.Api/Services/MongoService.cs:36-51 | the document with the id or null; throws for an id that is not an ObjectId |
| Documents.InsertedId | POC.Api/Models/Todo.cs:31-33 | a non-empty id is kept; a null or empty one is replaced by the generated ObjectId |
| Documents.BsonInstant | POC.Api/Services/MongoService.cs:57-58 | a BSON `DateTime`: a whole number of milliseconds from the Unix epoch, less than one millisecond from the instant, rounded toward the epoch |
| Documents.BsonInstantIdempotent | POC.Api/Services/MongoService.cs:57-58 | an instant read back from the server is stored unchanged |
| Documents.StoredFormKeepsFields | POC.Api/Services/MongoService.cs:57-58 | the stored form of a document keeps id, name, content, metadata and tags, moves each instant by less than a millisecond, and is its own stored form |
| Documents.MongoService.CreateDocument | POC.Api/Services/MongoService.cs:53-68 | stamps `CreatedAt`, returns the caller's document with its id (or the generated one when null or empty) and inserts exactly its stored form; throws on a duplicate or a malformed id; no other id changes |
| Documents.MongoService.UpdateDocument | POC.Api/Services/MongoService.cs:70-95 | forces the id and `UpdatedAt`, returns that document and replaces the stored one wholesale by its stored form; returns null and inserts nothing when no document has the id; no other id changes |
| Documents.MongoService.DeleteDocument | POC.Api/Services/MongoService.cs:97-111 | removes at most that one document and returns true exactly when it removed one; no other id changes |
| Documents.MongoService.SearchDocuments | POC.Api/Services/MongoService.cs:113-134 | exactly the documents whose name or content matches, with their multiplicity, newest first |
| Documents.MongoService.GetDocumentsByTag | POC.Api/Services/MongoService.cs:136-152 | exactly the documents tagged with the tag, newest first |
| Todos.ValidTodoFitsColumns | POC.Api/Models/Todo.cs:11-22 | a todo that passes validation fits the table's columns |
| Todos.BlankTitleFitsColumns | POC.Api/Models/Todo.cs:11-13 | the converse fails: a blank title fits the column but fails validation |
| Todos.TodoService.constructor | POC.Api/Services/TodoService.cs:12-16 | an empty table whose identity starts at 1 |
| Todos.TodoService.Find | POC.Api/Services/TodoService.cs:38-40 | the todo with the id, or none exactly when no row has it |
| Todos.TodoService.GetAllTodos | POC.Api/Services/TodoService.cs:18-32 | every todo, newest first (a permutation of the table) |
| Todos.TodoService.GetTodoById | POC.Api/Services/TodoService.cs:34-47 | the todo whose id is the given one, or null exactly when none has it |
| Todos.TodoService.GetTodosByCategory | POC.Api/Services/TodoService.cs:119-134 | exactly the todos whose non-null category equals the given one under the collation, with multiplicity, newest first |
| Todos.TodoService.CollatedCategoriesAgree | POC.Api/Services/TodoService.cs:125 | under a collation that is an equivalence, two categories it equates give the same list |
| Ordering.FilterAgrees | POC.Api/Services/TodoService.cs:125 | two conditions true of the same elements select the same rows in the same order |
| Todos.TodoService.GetPendingTodos | POC.Api/Services/TodoService.cs:136-152 | exactly the todos not done, by priority ascending, then newest first |
| Todos.TodoService.CreateTodo | POC.Api/Services/TodoService.cs:49-65 | stamps `CreatedAt`, adds exactly one row under the next identity and returns it; no other id changes |
| Todos.TodoService.UpdateTodo | POC.Api/Services/TodoService.cs:67-94 | null with no change for an absent id; otherwise copies title, done, description, category and priority, sets `UpdatedAt`, keeps id and `CreatedAt`; no other id changes |
| Todos.TodoService.DeleteTodo | POC.Api/Services/TodoService.cs:96-117 | false with no change for an absent id; otherwise true and exactly that row removed |
| Http.RequestsFollowStoreCalls | POC.Api/Controllers/TodoController.cs:59-146 | the steps of consecutive actions keep every publish right after a store call |
| TodoApi.DeletedContentNamesId | POC.Api/Controllers/TodoController.cs:134-137 | the deletion notice determines the deleted id |
| TodoApi.TodoController.constructor | POC.Api/Controllers/TodoController.cs:15-23 | the controller works on the given store and queue service |
| TodoApi.TodoController.GetTodos | POC.Api/Controllers/TodoController.cs:25-38 | 200 with every todo newest first, or 500; no publish |
| TodoApi.TodoController.GetTodo | POC.Api/Controllers/TodoController.cs:40-57 | 200 with the todo, 404 exactly when no todo has the id, or 500; no publish |
| TodoApi.TodoController.CreateTodo | POC.Api/Controllers/TodoController.cs:59-84 | invalid model: 400, no store call, no publish; failed insert: 500, no publish; otherwise one row added, then one publish of "New todo created: " + title to "todo-created" with type "todo", and 201 or 500 as the publish ends |
| TodoApi.TodoController.UpdateTodo | POC.Api/Controllers/TodoController.cs:86-120 | id mismatch or invalid model: 400 before the store; absent id: 404, no publish; otherwise the update, then one publish to "todo-updated", and 200 or 500 with the update kept |
| TodoApi.TodoController.DeleteTodo | POC.Api/Controllers/TodoController.cs:122-146 | absent id: 404, no publish; otherwise the row removed, then one publish of "Todo deleted with ID: " + id to "todo-deleted", and 204 or 500 |
| TodoApi.TodoController.Announce | POC.Api/Controllers/TodoController.cs:72-75 | the notification is one call of the string overload with type "todo" |
| TodoApi.TodoController.GetTodosByCategory | POC.Api/Controllers/TodoController.cs:148-161 | 200 with exactly the todos whose category equals the given one under the collation, newest first, or 500; no publish |
| TodoApi.TodoController.GetPendingTodos | POC.Api/Controllers/TodoController.cs:163-176 | 200 with exactly the pending todos in priority order, or 500; no publish |
| DocumentApi.DeletedContentNamesId | POC.Api/Controllers/MongoController.cs:128-132 | the deletion notice determines the deleted id |
| DocumentApi.MongoController.constructor | POC.Api/Controllers/MongoController.cs:15-23 | the controller works on the given store and queue service |
| DocumentApi.MongoController.GetDocuments | POC.Api/Controllers/MongoController.cs:25-38 | 200 with every document newest first, or 500; no publish |
| DocumentApi.MongoController.GetDocument | POC.Api/Controllers/MongoController.cs:40-57 | 200 with the document, 404 exactly when none has the id, 500 when the lookup throws; no publish |
| DocumentApi.MongoController.CreateDocument | POC.Api/Controllers/MongoController.cs:59-84 | invalid model: 400, no store call, no publish; otherwise as `Insert` |
| DocumentApi.MongoController.Insert | POC.Api/Controllers/MongoController.cs:69-83 | failed insert: 500, no publish; otherwise the stored form of the document added under its id (generated when null or empty), then one publish of "New document created: " + name to "document-created" with type "document", and 201 with the caller's document or 500 |
| DocumentApi.MongoController.UpdateDocument | POC.Api/Controllers/MongoController.cs:86-115 | invalid model: 400 before the store; no match: 404, no publish; otherwise the replacement by the stored form, then one publish to "document-updated", and 200 with the caller's document or 500 |
| DocumentApi.MongoController.DeleteDocument | POC.Api/Controllers/MongoController.cs:117-141 | no match: 404, no publish; otherwise the document removed, then one publish of "Document deleted with ID: " + id to "document-deleted", and 204 or 500 |
| DocumentApi.MongoController.Announce | POC.Api/Controllers/MongoController.cs:72-75 | the notification is one call of the string overload with type "document" |
| DocumentApi.MongoController.SearchDocuments | POC.Api/Controllers/MongoController.cs:143-161 | null or blank term: 400 without calling the store; otherwise 200 with exactly the matching documents newest first, or 500; no publish |
| DocumentApi.MongoController.GetDocumentsByTag | POC.Api/Controllers/MongoController.cs:163-176 | 200 with exactly the tagged documents newest first, or 500; no publish |

## Left out

- Azure Service Bus internals (the broker, delivery locks, redelivery, max delivery count, TTL enforcement, the wire): the transport is a log of the calls the service makes.
- `ProcessErrorAsync` and stopping a processor: the first only logs, and the code never stops its processors.
- Whether `AbandonMessageAsync` itself throws: the callback has no handler for it, and the exception goes to the SDK.
- `MaxConcurrentCalls = 1`, async scheduling and the unlocked `Dictionary`: the option is recorded and runs are sequential, with no interleavings.
- JSON serialization: `Serialize` and `Deserialize` are functions whose round trip holds by construction; the serializer's own format is not modelled.
- Logging: it has no effect on behaviour.
- `DateTime.UtcNow` and `Guid.NewGuid()`: parameters.
- Database and SDK failures: boolean parameters saying whether a call throws, not their causes.
- MongoDB regular-expression semantics and case-insensitivity: the `matches` parameter; an invalid pattern throwing on the server is part of `dbDown`.
- EF Core change tracking, `FindAsync` caching and identity gaps after a failed insert: the table is a sequence of rows plus the next identity value.
- `Todos.TodoService.CreateTodo`: does not model 32-bit overflow of the identity column, because the id is unbounded here.
- ObjectId normalisation: an ObjectId stored back is taken to be the same text, so case changes of hexadecimal digits are not modelled.
- String lengths count characters rather than UTF-16 code units.
- `Ordering.SortBy`: states sortedness and permutation but not the relative order of records with equal keys, which the database does not promise either.
- Model binding, routing attributes, `CreatedAtAction` metadata and `[ApiController]`'s automatic 400: results are an `ActionResult` datatype; model state is `TodoValid` for todos and a boolean for documents, whose validation the framework derives from the non-nullable `Name` and `Content` rather than from annotations.
- `MessageQueueController`, the interfaces, `AppDb`, CORS and the health checks of `Program.cs`: not part of this model. Only the lifetimes of the client and services in `Program.cs` are used, for the finding below. The `/healthz` "servicebus" check (POC.Api/Program.cs:66-79) calls `BuildServiceProvider`, so it asks a client of its own and is not affected by the finding.
- The SQL collation itself: `equalUnder` is a parameter; which collation the database uses is server configuration, not code.
- `Documents.BsonInstant`: cuts every instant, including `DateTime.MaxValue`, which the driver maps back to itself; a clock reading that large does not occur.
- BSON dates inside `Metadata` values: values are opaque, so a `DateTime` held in `Metadata` is not cut to milliseconds.
- `ServiceBusClient.DisposeAsync` is SDK code: the model takes from it only that the client marks itself closed before shutting its connection down, so a disposal that throws still leaves it closed.
- `CreateQueueAsync`'s `durable` parameter: it is unused by the code.

## Findings

| source | as written | input that shows it | evidently intended | confidence | as-written member | corrected member |
|---|---|---|---|---|---|---|
| POC.Api/Services/MessageQueueService.cs:170-177 | `Dispose` disposes the `ServiceBusClient`, which is a process-wide singleton (POC.Api/Program.cs:25-29) while the service is scoped per request (POC.Api/Program.cs:34) | two requests in a row, each publishing over a transport that never fails: the second publish fails because the client was closed when the first scope ended, and `IsHealthyAsync` (behind `GET api/messagequeue/health`, POC.Api/Controllers/MessageQueueController.cs:81-94) reports unhealthy from then on | a scoped service closes only the senders it created and leaves the shared client open | medium, not executed | Hosting.TwoScopesAsWritten | Hosting.TwoScopesCorrected |
