/** `MongoController` (POC.Api/Controllers/MongoController.cs): the HTTP
    actions over the document store, with the same shape as the Todo
    controller: guards, one store call, and one publish after a successful
    mutation only; an exception ends the action with a 500. Each mutating
    action also returns, as a ghost result, the calls it made in order.
    `modelValid` is the outcome of model validation on the bound document,
    which the framework computes before the action runs. */
module DocumentApi {
  import opened Common
  import opened Models
  import opened Ordering
  import opened MessageQueue
  import opened Documents
  import opened Http

  const CreatedQueue: string := "document-created"
  const UpdatedQueue: string := "document-updated"
  const DeletedQueue: string := "document-deleted"
  const DocumentMessageType: string := "document"

  function CreatedContent(d: MongoDocument): string
  {
    "New document created: " + Interpolate(d.name)
  }

  function UpdatedContent(d: MongoDocument): string
  {
    "Document updated: " + Interpolate(d.name)
  }

  function DeletedContent(id: string): string
  {
    "Document deleted with ID: " + id
  }

  /** The deletion notice names the deleted id. */
  lemma DeletedContentNamesId(a: string, b: string)
    requires DeletedContent(a) == DeletedContent(b)
    ensures a == b
  {
    var n := |"Document deleted with ID: "|;
    assert a == DeletedContent(a)[n..];
    assert b == DeletedContent(b)[n..];
  }

  class MongoController {
    const documents: MongoService
    const queue: MessageQueueService

    ghost predicate Valid()
      reads documents, queue
    {
      documents.Valid() && queue.Valid()
    }

    constructor (documents: MongoService, queue: MessageQueueService)
      ensures this.documents == documents && this.queue == queue
    {
      this.documents := documents;
      this.queue := queue;
    }

    /** `GET api/mongo`. */
    method GetDocuments(dbDown: bool) returns (r: ActionResult<seq<MongoDocument>>)
      ensures dbDown ==> r == InternalServerError
      ensures !dbDown ==> r.Ok? && SortedBy(r.value, NewestFirst) && multiset(r.value) == multiset(documents.docs)
    {
      var result := documents.GetAllDocuments(dbDown);
      if result.Threw? {
        return InternalServerError;
      }
      return Ok(result.value);
    }

    /** `GET api/mongo/{id}`: an id that is not an ObjectId makes the
        lookup throw, hence a 500 rather than a 404. */
    method GetDocument(id: string, dbDown: bool) returns (r: ActionResult<MongoDocument>)
      ensures dbDown || !IsObjectId(id) ==> r == InternalServerError
      ensures !dbDown && IsObjectId(id) ==>
        (r == NotFound <==> forall j :: 0 <= j < |documents.docs| ==> documents.docs[j].id != Some(id))
      ensures !dbDown && IsObjectId(id) && r != NotFound ==>
        r.Ok? && r.value in documents.docs && r.value.id == Some(id)
    {
      var result := documents.GetDocumentById(id, dbDown);
      if result.Threw? {
        return InternalServerError;
      }
      if result.value.None? {
        return NotFound;
      }
      return Ok(result.value.value);
    }

    /** `POST api/mongo`. */
    method CreateDocument(document: MongoDocument, modelValid: bool, now: Instant, generatedId: string,
                          dbDown: bool, env: PublishEnv)
      returns (r: ActionResult<MongoDocument>, ghost steps: seq<Step>)
      requires Valid() && IsObjectId(generatedId)
      modifies documents, queue, queue.client
      ensures Valid() && PublishesFollowStoreCalls(steps)
      ensures !modelValid ==>
        r == InvalidModel && steps == [] && documents.docs == old(documents.docs) && unchanged(queue, queue.client)
      ensures var id := InsertedId(document, generatedId);
        modelValid && (dbDown || !IsObjectId(id) || old(documents.Find(id)).Some?) ==>
        && r == InternalServerError && steps == [StoreCalled]
        && documents.docs == old(documents.docs) && unchanged(queue, queue.client)
      ensures var id := InsertedId(document, generatedId);
        modelValid && !dbDown && IsObjectId(id) && old(documents.Find(id)).None? ==>
        var created := document.(id := Some(id), createdAt := now);
        var content := CreatedContent(created);
        && documents.docs == old(documents.docs) + [StoredForm(created)]
        && steps == [StoreCalled, PublishCalled(CreatedQueue, content)]
        && queue.State() == AfterPublish(old(queue.State()), CreatedQueue, TextMessage(content, DocumentMessageType, env.messageId, env.clock), env.createThrows, env.sendThrows)
        && r == if PublishSucceeds(old(queue.senders), old(queue.client.isClosed), CreatedQueue, env.createThrows, env.sendThrows)
                then Created(created) else InternalServerError
    {
      if !modelValid {
        r, steps := InvalidModel, [];
      } else {
        r, steps := Insert(document, now, generatedId, dbDown, env);
      }
    }

    /** The part of `CreateDocument` after model validation: the insert,
        then the notification if the insert succeeded. */
    method Insert(document: MongoDocument, now: Instant, generatedId: string, dbDown: bool, env: PublishEnv)
      returns (r: ActionResult<MongoDocument>, ghost steps: seq<Step>)
      requires Valid() && IsObjectId(generatedId)
      modifies documents, queue, queue.client
      ensures Valid() && PublishesFollowStoreCalls(steps)
      ensures var id := InsertedId(document, generatedId);
        dbDown || !IsObjectId(id) || old(documents.Find(id)).Some? ==>
        && r == InternalServerError && steps == [StoreCalled]
        && documents.docs == old(documents.docs) && unchanged(queue, queue.client)
      ensures var id := InsertedId(document, generatedId);
        !dbDown && IsObjectId(id) && old(documents.Find(id)).None? ==>
        var created := document.(id := Some(id), createdAt := now);
        var content := CreatedContent(created);
        && documents.docs == old(documents.docs) + [StoredForm(created)]
        && steps == [StoreCalled, PublishCalled(CreatedQueue, content)]
        && queue.State() == AfterPublish(old(queue.State()), CreatedQueue, TextMessage(content, DocumentMessageType, env.messageId, env.clock), env.createThrows, env.sendThrows)
        && r == if PublishSucceeds(old(queue.senders), old(queue.client.isClosed), CreatedQueue, env.createThrows, env.sendThrows)
                then Created(created) else InternalServerError
    {
      ghost var id := InsertedId(document, generatedId);
      steps := [StoreCalled];
      var created := documents.CreateDocument(document, now, generatedId, dbDown);
      if created.Threw? {
        assert dbDown || !IsObjectId(id) || old(documents.Find(id)).Some?;
        r := InternalServerError;
      } else {
        assert !dbDown && IsObjectId(id) && old(documents.Find(id)).None?;
        assert created.value == document.(id := Some(id), createdAt := now);
        assert documents.docs == old(documents.docs) + [StoredForm(created.value)];
        var content := CreatedContent(created.value);
        steps := steps + [PublishCalled(CreatedQueue, content)];
        var status := Announce(CreatedQueue, content, env);
        r := if status.Succeeded? then Created(created.value) else InternalServerError;
      }
    }

    /** `PUT api/mongo/{id}`: unlike the Todo controller there is no check
        that the body's id matches the route's; the route's id wins. */
    method UpdateDocument(id: string, document: MongoDocument, modelValid: bool, now: Instant,
                          dbDown: bool, env: PublishEnv)
      returns (r: ActionResult<MongoDocument>, ghost steps: seq<Step>)
      requires Valid()
      modifies documents, queue, queue.client
      ensures Valid() && PublishesFollowStoreCalls(steps)
      ensures !modelValid ==>
        r == InvalidModel && steps == [] && documents.docs == old(documents.docs) && unchanged(queue, queue.client)
      ensures modelValid && (dbDown || !IsObjectId(id) || old(documents.Find(id)).None?) ==>
        && r == (if dbDown || !IsObjectId(id) then InternalServerError else NotFound)
        && steps == [StoreCalled] && documents.docs == old(documents.docs) && unchanged(queue, queue.client)
      ensures modelValid && !dbDown && IsObjectId(id) && old(documents.Find(id)).Some? ==>
        var u := document.(id := Some(id), updatedAt := Some(now));
        var content := UpdatedContent(u);
        && documents.Find(id) == Some(StoredForm(u))
        && (forall k :: k != id ==> documents.Find(k) == old(documents.Find(k)))
        && steps == [StoreCalled, PublishCalled(UpdatedQueue, content)]
        && queue.State() == AfterPublish(old(queue.State()), UpdatedQueue, TextMessage(content, DocumentMessageType, env.messageId, env.clock), env.createThrows, env.sendThrows)
        && r == if PublishSucceeds(old(queue.senders), old(queue.client.isClosed), UpdatedQueue, env.createThrows, env.sendThrows)
                then Ok(u) else InternalServerError
    {
      if !modelValid {
        return InvalidModel, [];
      }
      steps := [StoreCalled];
      var updated := documents.UpdateDocument(id, document, now, dbDown);
      if updated.Threw? {
        return InternalServerError, steps;
      }
      if updated.value.None? {
        return NotFound, steps;
      }
      var stored := updated.value.value;
      var content := UpdatedContent(stored);
      steps := steps + [PublishCalled(UpdatedQueue, content)];
      var status := Announce(UpdatedQueue, content, env);
      if status.Faulted? {
        return InternalServerError, steps;
      }
      return Ok(stored), steps;
    }

    /** `DELETE api/mongo/{id}`. */
    method DeleteDocument(id: string, dbDown: bool, env: PublishEnv) returns (r: ActionResult<()>, ghost steps: seq<Step>)
      requires Valid()
      modifies documents, queue, queue.client
      ensures Valid() && PublishesFollowStoreCalls(steps)
      ensures dbDown || !IsObjectId(id) || old(documents.Find(id)).None? ==>
        && r == (if dbDown || !IsObjectId(id) then InternalServerError else NotFound)
        && steps == [StoreCalled] && documents.docs == old(documents.docs) && unchanged(queue, queue.client)
      ensures !dbDown && IsObjectId(id) && old(documents.Find(id)).Some? ==>
        && documents.Find(id).None?
        && (forall k :: k != id ==> documents.Find(k) == old(documents.Find(k)))
        && steps == [StoreCalled, PublishCalled(DeletedQueue, DeletedContent(id))]
        && queue.State() == AfterPublish(old(queue.State()), DeletedQueue, TextMessage(DeletedContent(id), DocumentMessageType, env.messageId, env.clock), env.createThrows, env.sendThrows)
        && r == if PublishSucceeds(old(queue.senders), old(queue.client.isClosed), DeletedQueue, env.createThrows, env.sendThrows)
                then NoContent else InternalServerError
    {
      steps := [StoreCalled];
      var deleted := documents.DeleteDocument(id, dbDown);
      if deleted.Threw? {
        return InternalServerError, steps;
      }
      if !deleted.value {
        return NotFound, steps;
      }
      var content := DeletedContent(id);
      steps := steps + [PublishCalled(DeletedQueue, content)];
      var status := Announce(DeletedQueue, content, env);
      if status.Faulted? {
        return InternalServerError, steps;
      }
      return NoContent, steps;
    }

    /** The notification an action sends after a successful mutation:
        `PublishMessageAsync(content, queueName, "document")`. */
    method Announce(queueName: string, content: string, env: PublishEnv) returns (status: Status)
      requires queue.Valid()
      modifies queue`senders, queue`log, queue`published, queue.client`nextSerial
      ensures queue.Valid()
      ensures queue.State() == AfterPublish(old(queue.State()), queueName, TextMessage(content, DocumentMessageType, env.messageId, env.clock),
                                            env.createThrows, env.sendThrows)
      ensures status == Succeeded <==> PublishSucceeds(old(queue.senders), old(queue.client.isClosed), queueName, env.createThrows, env.sendThrows)
    {
      status := queue.PublishText(content, queueName, DocumentMessageType, env.messageId, env.clock, env.createThrows, env.sendThrows);
    }

    /** `GET api/mongo/search?term=...`: a missing or blank term is refused
        before the store is asked. */
    method SearchDocuments(term: Option<string>, matches: (string, string) -> bool, dbDown: bool)
      returns (r: ActionResult<seq<MongoDocument>>)
      ensures IsNullOrWhiteSpace(term) ==> r == BadRequest("Search term is required")
      ensures !IsNullOrWhiteSpace(term) && dbDown ==> r == InternalServerError
      ensures !IsNullOrWhiteSpace(term) && !dbDown ==>
        && r.Ok? && SortedBy(r.value, NewestFirst)
        && forall d :: multiset(r.value)[d] == if SearchHit(matches, term.value, d) then multiset(documents.docs)[d] else 0
    {
      if IsNullOrWhiteSpace(term) {
        return BadRequest("Search term is required");
      }
      var result := documents.SearchDocuments(term.value, matches, dbDown);
      if result.Threw? {
        return InternalServerError;
      }
      return Ok(result.value);
    }

    /** `GET api/mongo/tag/{tag}`. */
    method GetDocumentsByTag(tag: string, dbDown: bool) returns (r: ActionResult<seq<MongoDocument>>)
      ensures dbDown ==> r == InternalServerError
      ensures !dbDown ==> r.Ok? && SortedBy(r.value, NewestFirst)
      ensures !dbDown ==> forall d :: multiset(r.value)[d] == if tag in d.tags then multiset(documents.docs)[d] else 0
    {
      var result := documents.GetDocumentsByTag(tag, dbDown);
      if result.Threw? {
        return InternalServerError;
      }
      return Ok(result.value);
    }
  }
}
