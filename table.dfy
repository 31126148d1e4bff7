/** A table of rows with a unique key, in storage order: the state of the
    `Todos` table and of the `documents` collection. The id -> record map the
    services work with is `Lookup`; the storage order is what a query without
    an ORDER BY would return, and is where ties of a sort come from. */
module Table {
  import opened Common

  /** No two rows share a key (a primary key / `_id` index). */
  ghost predicate UniqueKeys<T, K>(rows: seq<T>, key: T -> K)
  {
    forall i, j :: 0 <= i < j < |rows| ==> key(rows[i]) != key(rows[j])
  }

  /** The position of the first row whose key is `k`. */
  function IndexOf<T, K(==)>(rows: seq<T>, key: T -> K, k: K): (r: Option<nat>)
    ensures r.Some? ==> r.value < |rows| && key(rows[r.value]) == k
    ensures r.Some? ==> forall j :: 0 <= j < r.value ==> key(rows[j]) != k
    ensures r.None? <==> forall j :: 0 <= j < |rows| ==> key(rows[j]) != k
  {
    if rows == [] then None
    else if key(rows[0]) == k then Some(0)
    else
      var r := IndexOf(rows[1..], key, k);
      if r.Some? then Some(r.value + 1) else None
  }

  /** `FirstOrDefault(row => key(row) == k)`: the row with key `k`, or null. */
  function Lookup<T, K(==)>(rows: seq<T>, key: T -> K, k: K): (r: Option<T>)
    ensures r.Some? ==> r.value in rows && key(r.value) == k
    ensures r.None? <==> forall j :: 0 <= j < |rows| ==> key(rows[j]) != k
  {
    var i := IndexOf(rows, key, k);
    if i.Some? then Some(rows[i.value]) else None
  }

  /** With unique keys, looking up a row's key finds that row. */
  lemma LookupFindsRow<T, K>(rows: seq<T>, key: T -> K, i: nat)
    requires UniqueKeys(rows, key) && i < |rows|
    ensures IndexOf(rows, key, key(rows[i])) == Some(i)
    ensures Lookup(rows, key, key(rows[i])) == Some(rows[i])
  {
  }

  /** Appending a row with a new key: it can be looked up, nothing else moves. */
  lemma LookupAfterAppend<T, K>(rows: seq<T>, key: T -> K, x: T, k: K)
    requires UniqueKeys(rows, key) && Lookup(rows, key, key(x)).None?
    ensures UniqueKeys(rows + [x], key)
    ensures Lookup(rows + [x], key, k) == if k == key(x) then Some(x) else Lookup(rows, key, k)
  {
    var s := rows + [x];
    assert forall j :: 0 <= j < |rows| ==> s[j] == rows[j];
    if k == key(x) {
      LookupFindsRow(s, key, |rows|);
    } else if Lookup(rows, key, k).Some? {
      var i := IndexOf(rows, key, k).value;
      LookupFindsRow(rows, key, i);
      LookupFindsRow(s, key, i);
    }
  }

  /** Replacing row `i` by a row with the same key: the new row is found under
      that key, every other key finds what it found before. */
  lemma LookupAfterReplace<T, K>(rows: seq<T>, key: T -> K, i: nat, x: T, k: K)
    requires UniqueKeys(rows, key) && i < |rows| && key(x) == key(rows[i])
    ensures UniqueKeys(rows[i := x], key)
    ensures Lookup(rows[i := x], key, k) == if k == key(x) then Some(x) else Lookup(rows, key, k)
  {
    var s := rows[i := x];
    assert UniqueKeys(s, key) by {
      forall a, b | 0 <= a < b < |s| ensures key(s[a]) != key(s[b]) {
        assert key(s[a]) == key(rows[a]) && key(s[b]) == key(rows[b]);
      }
    }
    if k == key(x) {
      LookupFindsRow(s, key, i);
    } else if Lookup(rows, key, k).Some? {
      var j := IndexOf(rows, key, k).value;
      LookupFindsRow(rows, key, j);
      LookupFindsRow(s, key, j);
    } else {
      assert forall j :: 0 <= j < |s| ==> key(s[j]) == key(rows[j]);
    }
  }

  /** Removing row `i`: its key is no longer found, every other key finds
      what it found before. */
  lemma LookupAfterRemove<T, K>(rows: seq<T>, key: T -> K, i: nat, k: K)
    requires UniqueKeys(rows, key) && i < |rows|
    ensures UniqueKeys(rows[..i] + rows[i + 1..], key)
    ensures Lookup(rows[..i] + rows[i + 1..], key, k) == if k == key(rows[i]) then None else Lookup(rows, key, k)
  {
    var s := rows[..i] + rows[i + 1..];
    assert |s| == |rows| - 1;
    assert forall j :: 0 <= j < |s| ==> s[j] == if j < i then rows[j] else rows[j + 1];
    if k == key(rows[i]) {
    } else if Lookup(rows, key, k).Some? {
      var j := IndexOf(rows, key, k).value;
      LookupFindsRow(rows, key, j);
      var j' := if j < i then j else j - 1;
      assert s[j'] == rows[j];
      LookupFindsRow(s, key, j');
    }
  }

  /** Removing row `i` takes exactly that row out and keeps the others. */
  lemma RemoveRow<T>(rows: seq<T>, i: nat)
    requires i < |rows|
    ensures |rows[..i] + rows[i + 1..]| == |rows| - 1
    ensures multiset(rows[..i] + rows[i + 1..]) == multiset(rows) - multiset{rows[i]}
    ensures forall x :: x in rows[..i] + rows[i + 1..] ==> x in rows
  {
    assert rows == rows[..i] + [rows[i]] + rows[i + 1..];
  }
}
