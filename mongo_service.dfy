/** `MongoService` (POC.Api/Services/MongoService.cs): the `documents`
    collection of the `PocDb` database. The collection is a sequence of
    documents with unique `_id`s in storage order; `Find` is the
    id -> document map the service works with. `dbDown` says that the
    round trip to the server fails, so the call throws. */
module Documents {
  import opened Common
  import opened Models
  import opened Ordering
  import opened Table

  function DocumentId(d: MongoDocument): Option<string>
  {
    d.id
  }

  predicate IsHexDigit(c: char)
  {
    '0' <= c <= '9' || 'a' <= c <= 'f' || 'A' <= c <= 'F'
  }

  /** `Id` is declared `[BsonRepresentation(BsonType.ObjectId)]`: an id is
      stored as an ObjectId, and an id that is not 24 hexadecimal digits
      cannot be turned into one, so a filter or document carrying it throws
      before reaching the server. */
  predicate IsObjectId(s: string)
  {
    |s| == 24 && forall i :: 0 <= i < |s| ==> IsHexDigit(s[i])
  }

  /** `SortByDescending(d => d.CreatedAt)`: `a` may come before `b`. */
  predicate NewestFirst(a: MongoDocument, b: MongoDocument)
  {
    a.createdAt >= b.createdAt
  }

  lemma NewestFirstIsTotalPreorder()
    ensures TotalPreorder(NewestFirst)
  {
  }

  /** `d => d.Tags.Contains(tag)`. */
  predicate HasTag(d: MongoDocument, tag: string)
  {
    tag in d.tags
  }

  /** A case-insensitive regular-expression filter on one field: a missing
      (null) field never matches. `matches(pattern, text)` stands for the
      server's regular-expression engine. */
  predicate FieldMatches(matches: (string, string) -> bool, term: string, field: Option<string>)
  {
    field.Some? && matches(term, field.value)
  }

  /** `Filter.Or(Regex(Name, term), Regex(Content, term))`. */
  predicate SearchHit(matches: (string, string) -> bool, term: string, d: MongoDocument)
  {
    FieldMatches(matches, term, d.name) || FieldMatches(matches, term, d.content)
  }

  /** The id an insert stores: the document's own, or the one the driver
      generates when the document has none. The generator for a string
      `ObjectId` id treats the empty string as no id. */
  function InsertedId(document: MongoDocument, generatedId: string): (id: string)
    ensures document.id.Some? && document.id.value != "" ==> id == document.id.value
    ensures document.id == None || document.id == Some("") ==> id == generatedId
  {
    if document.id.Some? && document.id.value != "" then document.id.value else generatedId
  }

  const TicksPerMillisecond: int := 10_000

  /** `DateTime.UnixEpoch.Ticks`. */
  const UnixEpochTicks: int := 621_355_968_000_000_000

  /** The instant a BSON `DateTime` keeps of `i`: whole milliseconds since the
      Unix epoch, the ticks beyond them dropped (the division truncates
      toward zero, so instants before the epoch are moved up to it). */
  function BsonInstant(i: Instant): (r: Instant)
    ensures (r - UnixEpochTicks) % TicksPerMillisecond == 0
    ensures i >= UnixEpochTicks ==> UnixEpochTicks <= r <= i < r + TicksPerMillisecond
    ensures i < UnixEpochTicks ==> r - TicksPerMillisecond < i <= r <= UnixEpochTicks
  {
    var delta := i - UnixEpochTicks;
    var ms := if delta >= 0 then delta / TicksPerMillisecond else -((-delta) / TicksPerMillisecond);
    UnixEpochTicks + ms * TicksPerMillisecond
  }

  /** An instant a BSON `DateTime` already holds exactly is kept as it is. */
  lemma BsonInstantIdempotent(i: Instant)
    ensures BsonInstant(BsonInstant(i)) == BsonInstant(i)
  {
    var r := BsonInstant(i);
    var ms := (r - UnixEpochTicks) / TicksPerMillisecond;
    assert r == UnixEpochTicks + ms * TicksPerMillisecond;
  }

  /** The document the server holds after `d` is written: its `CreatedAt`
      and `UpdatedAt` at millisecond precision, everything else as sent. */
  function StoredForm(d: MongoDocument): MongoDocument
  {
    d.(createdAt := BsonInstant(d.createdAt),
       updatedAt := if d.updatedAt.Some? then Some(BsonInstant(d.updatedAt.value)) else None)
  }

  /** Writing keeps every field but the two instants, and moves those by
      less than a millisecond; writing a stored document again changes
      nothing. */
  lemma StoredFormKeepsFields(d: MongoDocument)
    ensures var s := StoredForm(d);
      && s.id == d.id && s.name == d.name && s.content == d.content
      && s.metadata == d.metadata && s.tags == d.tags
      && -TicksPerMillisecond < s.createdAt - d.createdAt < TicksPerMillisecond
      && s.updatedAt.Some? == d.updatedAt.Some?
      && (d.updatedAt.Some? ==> -TicksPerMillisecond < s.updatedAt.value - d.updatedAt.value < TicksPerMillisecond)
      && StoredForm(s) == s
  {
    BsonInstantIdempotent(d.createdAt);
    if d.updatedAt.Some? {
      BsonInstantIdempotent(d.updatedAt.value);
    }
  }

  class MongoService {
    /** The documents of the collection, in storage order. */
    var docs: seq<MongoDocument>

    /** Every stored document has an ObjectId, no two share one (the `_id`
        index), and each holds its instants at BSON precision. */
    ghost predicate Valid()
      reads this
    {
      && UniqueKeys(docs, DocumentId)
      && (forall i :: 0 <= i < |docs| ==> docs[i].id.Some? && IsObjectId(docs[i].id.value))
      && forall i :: 0 <= i < |docs| ==> StoredForm(docs[i]) == docs[i]
    }

    constructor ()
      ensures Valid() && docs == []
    {
      docs := [];
    }

    /** The document stored under `id`, if any. */
    function Find(id: string): (r: Option<MongoDocument>)
      reads this
      ensures r.Some? ==> r.value in docs && r.value.id == Some(id)
      ensures r.None? <==> forall j :: 0 <= j < |docs| ==> docs[j].id != Some(id)
    {
      Lookup(docs, DocumentId, Some(id))
    }

    /** `GetAllDocumentsAsync`: every stored document, newest first. */
    function GetAllDocuments(dbDown: bool): (r: Outcome<seq<MongoDocument>>)
      reads this
      ensures r.Threw? <==> dbDown
      ensures r.Returned? ==> SortedBy(r.value, NewestFirst) && multiset(r.value) == multiset(docs)
    {
      if dbDown then Threw
      else
        NewestFirstIsTotalPreorder();
        Returned(SortBy(docs, NewestFirst))
    }

    /** `GetDocumentByIdAsync`: the document whose id is `id`, or null. */
    function GetDocumentById(id: string, dbDown: bool): (r: Outcome<Option<MongoDocument>>)
      reads this
      ensures r.Threw? <==> dbDown || !IsObjectId(id)
      ensures r.Returned? && r.value.Some? ==> r.value.value in docs && r.value.value.id == Some(id)
      ensures r.Returned? ==> (r.value.None? <==> forall j :: 0 <= j < |docs| ==> docs[j].id != Some(id))
    {
      if dbDown || !IsObjectId(id) then Threw else Returned(Find(id))
    }

    /** `CreateDocumentAsync`: stamps `CreatedAt` with `now` and inserts the
        document. A document without an id (null or empty) gets the one the
        driver generates (`generatedId`); an id that is not an ObjectId, or
        one already in use (a duplicate-key error), makes the insert throw.
        The document returned is the caller's object, so it keeps `now` to
        the tick, while the collection holds its `StoredForm`. */
    method CreateDocument(document: MongoDocument, now: Instant, generatedId: string, dbDown: bool)
      returns (r: Outcome<MongoDocument>)
      requires Valid() && IsObjectId(generatedId)
      modifies this
      ensures Valid()
      ensures var id := InsertedId(document, generatedId);
        && (r.Threw? <==> dbDown || !IsObjectId(id) || old(Find(id)).Some?)
        && (r.Threw? ==> docs == old(docs))
        && (r.Returned? ==>
              && r.value == document.(id := Some(id), createdAt := now)
              && docs == old(docs) + [StoredForm(r.value)]
              && Find(id) == Some(StoredForm(r.value)))
      ensures forall k :: (r.Threw? || Some(k) != r.value.id) ==> Find(k) == old(Find(k))
    {
      var id := InsertedId(document, generatedId);
      if dbDown || !IsObjectId(id) || Find(id).Some? {
        return Threw;
      }
      var d := document.(id := Some(id), createdAt := now);
      var stored := StoredForm(d);
      StoredFormKeepsFields(d);
      forall k ensures Lookup(docs + [stored], DocumentId, k) == if k == stored.id then Some(stored) else Lookup(docs, DocumentId, k) {
        LookupAfterAppend(docs, DocumentId, stored, k);
      }
      LookupAfterAppend(docs, DocumentId, stored, stored.id);
      docs := docs + [stored];
      r := Returned(d);
    }

    /** `UpdateDocumentAsync`: forces the document's id to `id`, stamps
        `UpdatedAt` with `now`, and replaces the stored document with that id
        by it, wholesale (so `CreatedAt` and every other field come from the
        incoming document), so that the server holds its `StoredForm`. With
        no document under `id` it returns null and inserts nothing: upsert
        is off. */
    method UpdateDocument(id: string, document: MongoDocument, now: Instant, dbDown: bool)
      returns (r: Outcome<Option<MongoDocument>>)
      requires Valid()
      modifies this
      ensures Valid() && |docs| == |old(docs)|
      ensures r.Threw? <==> dbDown || !IsObjectId(id)
      ensures r.Returned? ==> (r.value.None? <==> old(Find(id)).None?)
      ensures r.Returned? && r.value.Some? ==>
        && r.value.value == document.(id := Some(id), updatedAt := Some(now))
        && Find(id) == Some(StoredForm(r.value.value))
      ensures !(r.Returned? && r.value.Some?) ==> docs == old(docs)
      ensures forall k :: k != id ==> Find(k) == old(Find(k))
    {
      if dbDown || !IsObjectId(id) {
        return Threw;
      }
      var d := document.(id := Some(id), updatedAt := Some(now));
      var i := IndexOf(docs, DocumentId, Some(id));
      if i.None? {
        return Returned(None);
      }
      var stored := StoredForm(d);
      StoredFormKeepsFields(d);
      forall k ensures Lookup(docs[i.value := stored], DocumentId, k) == if k == Some(id) then Some(stored) else Lookup(docs, DocumentId, k) {
        LookupAfterReplace(docs, DocumentId, i.value, stored, k);
      }
      LookupAfterReplace(docs, DocumentId, i.value, stored, Some(id));
      docs := docs[i.value := stored];
      r := Returned(Some(d));
    }

    /** `DeleteDocumentAsync`: removes the document with id `id`, if any, and
        reports whether one was removed. */
    method DeleteDocument(id: string, dbDown: bool) returns (r: Outcome<bool>)
      requires Valid()
      modifies this
      ensures Valid()
      ensures r.Threw? <==> dbDown || !IsObjectId(id)
      ensures r.Returned? ==> r.value == old(Find(id)).Some? && Find(id).None?
      ensures r == Returned(true) ==>
        multiset(docs) == multiset(old(docs)) - multiset{old(Find(id)).value} && |docs| == |old(docs)| - 1
      ensures r != Returned(true) ==> docs == old(docs)
      ensures forall k :: k != id ==> Find(k) == old(Find(k))
    {
      if dbDown || !IsObjectId(id) {
        return Threw;
      }
      var i := IndexOf(docs, DocumentId, Some(id));
      if i.None? {
        return Returned(false);
      }
      var j := i.value;
      var rest := docs[..j] + docs[j + 1..];
      forall k ensures Lookup(rest, DocumentId, k) == if k == Some(id) then None else Lookup(docs, DocumentId, k) {
        LookupAfterRemove(docs, DocumentId, j, k);
      }
      LookupAfterRemove(docs, DocumentId, j, Some(id));
      RemoveRow(docs, j);
      docs := rest;
      r := Returned(true);
    }

    /** `SearchDocumentsAsync`: exactly the documents whose name or content
        matches `term`, newest first. */
    function SearchDocuments(term: string, matches: (string, string) -> bool, dbDown: bool): (r: Outcome<seq<MongoDocument>>)
      reads this
      ensures r.Threw? <==> dbDown
      ensures r.Returned? ==> SortedBy(r.value, NewestFirst)
      ensures r.Returned? ==> forall d :: multiset(r.value)[d] == if SearchHit(matches, term, d) then multiset(docs)[d] else 0
    {
      if dbDown then Threw
      else
        NewestFirstIsTotalPreorder();
        var p := (d: MongoDocument) => SearchHit(matches, term, d);
        SortedFilter(docs, p, NewestFirst);
        Returned(SortBy(Filter(docs, p), NewestFirst))
    }

    /** `GetDocumentsByTagAsync`: exactly the documents tagged `tag`, newest first. */
    function GetDocumentsByTag(tag: string, dbDown: bool): (r: Outcome<seq<MongoDocument>>)
      reads this
      ensures r.Threw? <==> dbDown
      ensures r.Returned? ==> SortedBy(r.value, NewestFirst)
      ensures r.Returned? ==> forall d :: multiset(r.value)[d] == if tag in d.tags then multiset(docs)[d] else 0
    {
      if dbDown then Threw
      else
        NewestFirstIsTotalPreorder();
        var p := (d: MongoDocument) => HasTag(d, tag);
        SortedFilter(docs, p, NewestFirst);
        Returned(SortBy(Filter(docs, p), NewestFirst))
    }
  }
}
