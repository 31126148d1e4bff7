/** The entities of POC.Api/Models/Todo.cs: their fields, the values a
    freshly constructed object holds, and the limits the data annotations
    impose. */
module Models {
  import opened Common

  /** A `Dictionary<string, object>` value; its contents are never inspected. */
  type Value(!new)

  /** A `Guid`, represented by the text `Guid.ToString()` gives for it. */
  datatype Guid = Guid(text: string)

  /** A row of the relational `Todos` table. */
  datatype Todo = Todo(
    id: int,
    title: Option<string>,
    done: bool,
    createdAt: Instant,
    updatedAt: Option<Instant>,
    description: Option<string>,
    category: Option<string>,
    priority: int)

  /** A document of the `documents` collection. */
  datatype MongoDocument = MongoDocument(
    id: Option<string>,
    name: Option<string>,
    content: Option<string>,
    createdAt: Instant,
    updatedAt: Option<Instant>,
    metadata: map<string, Value>,
    tags: seq<string>)

  /** A queue message as the application sees it (`Type` is `messageType` here). */
  datatype Message = Message(
    id: Guid,
    content: Option<string>,
    messageType: string,
    createdAt: Instant,
    source: Option<string>,
    properties: map<string, Value>)

  const TitleMaxLength: nat := 200
  const DescriptionMaxLength: nat := 500
  const DefaultPriority: int := 1
  const DefaultMessageType: string := "info"

  /** `new Todo()` at instant `now`: `Title` is `default!` (null), `Priority` is 1. */
  function NewTodo(now: Instant): Todo
  {
    Todo(0, None, false, now, None, None, None, DefaultPriority)
  }

  /** `new MongoDocument()` at instant `now`. */
  function NewMongoDocument(now: Instant): MongoDocument
  {
    MongoDocument(None, None, None, now, None, map[], [])
  }

  /** `new Message()`, where `id` is the value `Guid.NewGuid()` produced. */
  function NewMessage(id: Guid, now: Instant): Message
  {
    Message(id, None, DefaultMessageType, now, None, map[])
  }

  /** `[Required]`: not null and not made of white space only
      (`AllowEmptyStrings` is false). */
  predicate SatisfiesRequired(s: Option<string>)
  {
    !IsNullOrWhiteSpace(s)
  }

  /** `[StringLength(n)]`: a null string passes, any other may have at most n characters. */
  predicate SatisfiesStringLength(s: Option<string>, n: nat)
  {
    s.None? || |s.value| <= n
  }

  /** The data annotations of `Todo`. `Priority` carries none: its
      "1-5 scale" is a comment only. */
  predicate TodoValid(t: Todo)
  {
    && SatisfiesRequired(t.title)
    && SatisfiesStringLength(t.title, TitleMaxLength)
    && SatisfiesStringLength(t.description, DescriptionMaxLength)
  }

  lemma NewTodoDefaults(now: Instant)
    ensures NewTodo(now).priority == 1 && !NewTodo(now).done
    ensures NewTodo(now).title.None? && NewTodo(now).createdAt == now
    ensures NewTodo(now).updatedAt.None? && NewTodo(now).description.None?
    ensures NewTodo(now).category.None?
    ensures !TodoValid(NewTodo(now))
  {
  }

  /** What a valid Todo looks like: a present, non-blank title of at most
      200 characters, and a description of at most 500 characters if any. */
  lemma {:induction false} ValidTodoLimits(t: Todo)
    requires TodoValid(t)
    ensures t.title.Some? && |t.title.value| <= 200
    ensures exists i :: 0 <= i < |t.title.value| && !IsWhiteSpace(t.title.value[i])
    ensures t.description.Some? ==> |t.description.value| <= 500
  {
  }

  /** Validity does not depend on `Priority` or `Done`: any priority passes. */
  lemma PriorityNotValidated(t: Todo, p: int, d: bool)
    ensures TodoValid(t) <==> TodoValid(t.(priority := p, done := d))
  {
  }

  lemma NewMongoDocumentDefaults(now: Instant)
    ensures NewMongoDocument(now).id.None?
    ensures NewMongoDocument(now).metadata == map[] && NewMongoDocument(now).tags == []
    ensures NewMongoDocument(now).createdAt == now
  {
  }

  lemma NewMessageDefaults(id: Guid, now: Instant)
    ensures NewMessage(id, now).id == id
    ensures NewMessage(id, now).messageType == "info"
    ensures NewMessage(id, now).properties == map[]
    ensures NewMessage(id, now).source.None?
    ensures NewMessage(id, now).createdAt == now
  {
  }
}
