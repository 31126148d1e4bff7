/** `TodoService` (POC.Api/Services/TodoService.cs): the relational `Todos`
    table behind EF Core. The table is a sequence of rows with unique ids
    in storage order; `Find` is the id -> Todo map the service works with.
    `dbDown` says that the database round trip of a call fails, so the call
    throws. */
module Todos {
  import opened Common
  import opened Models
  import opened Ordering
  import opened Table

  function TodoId(t: Todo): int
  {
    t.id
  }

  /** `OrderByDescending(t => t.CreatedAt)`: `a` may come before `b`. */
  predicate NewestFirst(a: Todo, b: Todo)
  {
    a.createdAt >= b.createdAt
  }

  /** `OrderBy(t => t.Priority).ThenByDescending(t => t.CreatedAt)`. */
  predicate PendingOrder(a: Todo, b: Todo)
  {
    a.priority < b.priority || (a.priority == b.priority && a.createdAt >= b.createdAt)
  }

  lemma NewestFirstIsTotalPreorder()
    ensures TotalPreorder(NewestFirst)
  {
  }

  lemma PendingOrderIsTotalPreorder()
    ensures TotalPreorder(PendingOrder)
  {
  }

  /** The SQL `=` in `t.Category == category`: `equalUnder` is string
      equality under the database's collation (SQL Server's default ignores
      case and trailing blanks), and a null category matches nothing. */
  predicate InCategory(t: Todo, category: string, equalUnder: (string, string) -> bool)
  {
    t.category.Some? && equalUnder(t.category.value, category)
  }

  predicate IsPending(t: Todo)
  {
    !t.done
  }

  /** What the table created by `EnsureCreated` (POC.Api/Program.cs) accepts
      from the annotations of `Todo`: `Title` is `nvarchar(200) NOT NULL`
      and `Description` is `nvarchar(500)`. Saving a row outside these
      bounds makes `SaveChanges` throw. */
  predicate ColumnsAccept(t: Todo)
  {
    && t.title.Some? && |t.title.value| <= TitleMaxLength
    && SatisfiesStringLength(t.description, DescriptionMaxLength)
  }

  /** A todo the insert accepts: it carries no id of its own (the identity
      column refuses explicit values) and it fits the columns. */
  predicate Insertable(t: Todo)
  {
    t.id == 0 && ColumnsAccept(t)
  }

  /** A Todo that passes model validation also fits the columns. */
  lemma ValidTodoFitsColumns(t: Todo)
    requires TodoValid(t)
    ensures ColumnsAccept(t)
  {
  }

  /** The converse fails: the columns store a blank title that model
      validation rejects. */
  lemma BlankTitleFitsColumns(t: Todo)
    requires t.title == Some(" ") && t.description.None?
    ensures ColumnsAccept(t) && !TodoValid(t)
  {
    assert IsWhiteSpace(t.title.value[0]);
  }

  /** The row `UpdateTodoAsync` saves: the stored row with the editable
      fields of `incoming` copied onto it and `UpdatedAt` set to `now`. */
  function ApplyUpdate(existing: Todo, incoming: Todo, now: Instant): Todo
  {
    existing.(title := incoming.title, done := incoming.done, description := incoming.description,
              category := incoming.category, priority := incoming.priority, updatedAt := Some(now))
  }

  class TodoService {
    /** The rows of `Todos`, in storage order. */
    var rows: seq<Todo>
    /** The next value of the `Id` identity column. */
    var nextIdentity: int

    /** Ids are unique, positive, and below the next identity value. */
    ghost predicate Valid()
      reads this
    {
      && UniqueKeys(rows, TodoId)
      && 0 < nextIdentity
      && forall i :: 0 <= i < |rows| ==> 0 < rows[i].id < nextIdentity
    }

    /** An empty table whose identity column starts at 1. */
    constructor ()
      ensures Valid() && rows == [] && nextIdentity == 1
    {
      rows := [];
      nextIdentity := 1;
    }

    /** Neither the rows nor the identity counter changed. */
    twostate predicate Unchanged()
      reads this
    {
      rows == old(rows) && nextIdentity == old(nextIdentity)
    }

    /** The todo stored under `id`, if any. */
    function Find(id: int): (r: Option<Todo>)
      reads this
      ensures r.Some? ==> r.value in rows && r.value.id == id
      ensures r.None? <==> forall j :: 0 <= j < |rows| ==> rows[j].id != id
    {
      Lookup(rows, TodoId, id)
    }

    /** `GetAllTodosAsync`: every stored todo, newest first. */
    function GetAllTodos(dbDown: bool): (r: Outcome<seq<Todo>>)
      reads this
      ensures r.Threw? <==> dbDown
      ensures r.Returned? ==> SortedBy(r.value, NewestFirst) && multiset(r.value) == multiset(rows)
    {
      if dbDown then Threw
      else
        NewestFirstIsTotalPreorder();
        Returned(SortBy(rows, NewestFirst))
    }

    /** `GetTodoByIdAsync`: the todo whose id is `id`, or null. */
    function GetTodoById(id: int, dbDown: bool): (r: Outcome<Option<Todo>>)
      reads this
      ensures r.Threw? <==> dbDown
      ensures r.Returned? && r.value.Some? ==> r.value.value in rows && r.value.value.id == id
      ensures r.Returned? ==> (r.value.None? <==> forall j :: 0 <= j < |rows| ==> rows[j].id != id)
    {
      if dbDown then Threw else Returned(Find(id))
    }

    /** `GetTodosByCategoryAsync`: exactly the todos whose category equals
        `category` under the collation `equalUnder`, newest first. */
    function GetTodosByCategory(category: string, dbDown: bool, equalUnder: (string, string) -> bool): (r: Outcome<seq<Todo>>)
      reads this
      ensures r.Threw? <==> dbDown
      ensures r.Returned? ==> SortedBy(r.value, NewestFirst)
      ensures r.Returned? ==> forall t ::
        multiset(r.value)[t] == if t.category.Some? && equalUnder(t.category.value, category) then multiset(rows)[t] else 0
    {
      if dbDown then Threw
      else
        NewestFirstIsTotalPreorder();
        var p := (t: Todo) => InCategory(t, category, equalUnder);
        SortedFilter(rows, p, NewestFirst);
        Returned(SortBy(Filter(rows, p), NewestFirst))
    }

    /** Under a collation that is an equivalence, two categories it equates
        (`"Work"` and `"work "` under SQL Server's default) give the same
        list. */
    lemma CollatedCategoriesAgree(c1: string, c2: string, equalUnder: (string, string) -> bool)
      requires equalUnder(c1, c2)
      requires forall a, b :: equalUnder(a, b) ==> equalUnder(b, a)
      requires forall a, b, c :: equalUnder(a, b) && equalUnder(b, c) ==> equalUnder(a, c)
      ensures GetTodosByCategory(c1, false, equalUnder) == GetTodosByCategory(c2, false, equalUnder)
    {
      var p1 := (t: Todo) => InCategory(t, c1, equalUnder);
      var p2 := (t: Todo) => InCategory(t, c2, equalUnder);
      FilterAgrees(rows, p1, p2);
    }

    /** `GetPendingTodosAsync`: exactly the todos not done, by priority
        ascending and then newest first. */
    function GetPendingTodos(dbDown: bool): (r: Outcome<seq<Todo>>)
      reads this
      ensures r.Threw? <==> dbDown
      ensures r.Returned? ==> SortedBy(r.value, PendingOrder)
      ensures r.Returned? ==> forall t :: multiset(r.value)[t] == if !t.done then multiset(rows)[t] else 0
    {
      if dbDown then Threw
      else
        PendingOrderIsTotalPreorder();
        SortedFilter(rows, IsPending, PendingOrder);
        Returned(SortBy(Filter(rows, IsPending), PendingOrder))
    }

    /** `CreateTodoAsync`: stamps `CreatedAt` with `now` and inserts the todo;
        the database assigns the next identity value as its id. A todo that
        is not `Insertable` makes the save throw. */
    method CreateTodo(todo: Todo, now: Instant, dbDown: bool) returns (r: Outcome<Todo>)
      requires Valid()
      modifies this
      ensures Valid()
      ensures dbDown || !Insertable(todo) ==>
        r == Threw && rows == old(rows) && nextIdentity == old(nextIdentity)
      ensures !dbDown && Insertable(todo) ==>
        && r == Returned(todo.(id := old(nextIdentity), createdAt := now))
        && rows == old(rows) + [r.value]
        && nextIdentity == old(nextIdentity) + 1
      ensures r.Returned? ==>
        && r.value.createdAt == now && old(Find(r.value.id)).None? && Find(r.value.id) == Some(r.value)
      ensures forall k :: (r.Threw? || k != r.value.id) ==> Find(k) == old(Find(k))
    {
      if dbDown || !Insertable(todo) {
        return Threw;
      }
      var t := todo.(id := nextIdentity, createdAt := now);
      assert Lookup(rows, TodoId, t.id).None?;
      forall k ensures Lookup(rows + [t], TodoId, k) == if k == t.id then Some(t) else Lookup(rows, TodoId, k) {
        LookupAfterAppend(rows, TodoId, t, k);
      }
      LookupAfterAppend(rows, TodoId, t, t.id);
      rows := rows + [t];
      nextIdentity := nextIdentity + 1;
      r := Returned(t);
    }

    /** `UpdateTodoAsync`: null when no todo has the id; otherwise copies
        `Title`, `Done`, `Description`, `Category` and `Priority` from `todo`
        onto the stored row, sets `UpdatedAt` to `now`, saves, and returns
        the row. Id and `CreatedAt` stay; no other row changes. */
    method UpdateTodo(id: int, todo: Todo, now: Instant, dbDown: bool) returns (r: Outcome<Option<Todo>>)
      requires Valid()
      modifies this
      ensures Valid() && nextIdentity == old(nextIdentity)
      ensures dbDown ==> r == Threw && rows == old(rows)
      ensures !dbDown && old(Find(id)).None? ==> r == Returned(None) && rows == old(rows)
      ensures !dbDown && old(Find(id)).Some? && r.Threw? ==> rows == old(rows)
      ensures !dbDown && old(Find(id)).Some? ==>
        var u := ApplyUpdate(old(Find(id)).value, todo, now);
        (r.Threw? <==> !ColumnsAccept(u)) && (r.Returned? ==> r == Returned(Some(u)))
      ensures r.Returned? && r.value.Some? ==>
        && Find(id) == r.value
        && r.value.value.id == id && r.value.value.createdAt == old(Find(id)).value.createdAt
        && r.value.value.updatedAt == Some(now)
      ensures |rows| == |old(rows)|
      ensures forall k :: k != id ==> Find(k) == old(Find(k))
    {
      if dbDown {
        return Threw;
      }
      var i := IndexOf(rows, TodoId, id);
      if i.None? {
        return Returned(None);
      }
      var existing := rows[i.value];
      var updated := ApplyUpdate(existing, todo, now);
      if !ColumnsAccept(updated) {
        return Threw;
      }
      forall k ensures Lookup(rows[i.value := updated], TodoId, k) == if k == id then Some(updated) else Lookup(rows, TodoId, k) {
        LookupAfterReplace(rows, TodoId, i.value, updated, k);
      }
      LookupAfterReplace(rows, TodoId, i.value, updated, id);
      assert forall j :: 0 <= j < |rows| ==> rows[i.value := updated][j].id == rows[j].id;
      rows := rows[i.value := updated];
      r := Returned(Some(updated));
    }

    /** `DeleteTodoAsync`: false when no todo has the id; otherwise removes
        that row and returns true. */
    method DeleteTodo(id: int, dbDown: bool) returns (r: Outcome<bool>)
      requires Valid()
      modifies this
      ensures Valid() && nextIdentity == old(nextIdentity)
      ensures dbDown ==> r == Threw && rows == old(rows)
      ensures !dbDown ==> r == Returned(old(Find(id)).Some?) && Find(id).None?
      ensures !dbDown && old(Find(id)).Some? ==>
        multiset(rows) == multiset(old(rows)) - multiset{old(Find(id)).value} && |rows| == |old(rows)| - 1
      ensures old(Find(id)).None? ==> rows == old(rows)
      ensures forall k :: k != id ==> Find(k) == old(Find(k))
    {
      if dbDown {
        return Threw;
      }
      var i := IndexOf(rows, TodoId, id);
      if i.None? {
        return Returned(false);
      }
      var j := i.value;
      var rest := rows[..j] + rows[j + 1..];
      forall k ensures Lookup(rest, TodoId, k) == if k == id then None else Lookup(rows, TodoId, k) {
        LookupAfterRemove(rows, TodoId, j, k);
      }
      LookupAfterRemove(rows, TodoId, j, id);
      RemoveRow(rows, j);
      rows := rest;
      r := Returned(true);
    }
  }
}
