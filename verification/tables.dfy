/** A table of entities keyed by an auto-generated integer id, with the
    part of the JPA repository contract the services use: `findAll`,
    `findById(..).get()`, `deleteById` and `save`.

    The rows are kept in storage order. `nextId` is the identity counter
    of the table: the id the next inserted row receives. It only grows,
    so an id is never handed out twice, even after a delete. */
module Tables {
  import opened Results
  import Seqs

  datatype Table<T> = Table(rows: seq<T>, nextId: int)

  /** What `Optional.get()` throws on an empty `Optional`. */
  datatype LookupError = NoSuchElement

  /** Every stored row has an id below the counter, and no two rows
      share an id. */
  ghost predicate Valid<T>(t: Table<T>, key: T -> Option<int>) {
    && 1 <= t.nextId
    && (forall i :: 0 <= i < |t.rows| ==> key(t.rows[i]).Some? && 1 <= key(t.rows[i]).value < t.nextId)
    && (forall i, j :: 0 <= i < j < |t.rows| ==> key(t.rows[i]) != key(t.rows[j]))
  }

  predicate Stored<T>(rows: seq<T>, key: T -> Option<int>, id: int) {
    exists i :: 0 <= i < |rows| && key(rows[i]) == Some(id)
  }

  /** Position of the first row carrying `id`. */
  function IndexOfId<T>(rows: seq<T>, key: T -> Option<int>, id: int): (r: Option<nat>)
    ensures r.Some? ==> r.value < |rows| && key(rows[r.value]) == Some(id)
    ensures r.Some? ==> forall i :: 0 <= i < r.value ==> key(rows[i]) != Some(id)
    ensures r.None? <==> !Stored(rows, key, id)
  {
    if rows == [] then None
    else if key(rows[0]) == Some(id) then Some(0)
    else
      match IndexOfId(rows[1..], key, id)
      case None =>
        assert forall i :: 1 <= i < |rows| ==> rows[i] == rows[1..][i - 1];
        None
      case Some(j) => Some(j + 1)
  }

  /** `findById(id).get()`: the row with that id, or the exception. */
  function Get<T>(t: Table<T>, key: T -> Option<int>, id: int): (r: Result<T, LookupError>)
    ensures r.Success? <==> Stored(t.rows, key, id)
    ensures r.Success? ==> r.value in t.rows && key(r.value) == Some(id)
    ensures r.Failure? ==> r.error == NoSuchElement
  {
    match IndexOfId(t.rows, key, id)
    case Some(i) => Success(t.rows[i])
    case None => Failure(NoSuchElement)
  }

  /** In a valid table the row `Get` returns is the one row with that id. */
  lemma GetIsTheStoredRow<T>(t: Table<T>, key: T -> Option<int>, id: int, i: int)
    requires Valid(t, key)
    requires 0 <= i < |t.rows| && key(t.rows[i]) == Some(id)
    ensures Get(t, key, id) == Success(t.rows[i])
  {
    var j := IndexOfId(t.rows, key, id).value;
    assert key(t.rows[j]) == key(t.rows[i]);
  }

  /** The row test `deleteById(id)` keeps. */
  function Other<T>(key: T -> Option<int>, id: int): T -> bool {
    x => key(x) != Some(id)
  }

  /** `deleteById(id)`: every row carrying `id` goes, every other row
      stays, in its order; an absent id leaves the table as it is. */
  function DeleteById<T>(t: Table<T>, key: T -> Option<int>, id: int): (r: Table<T>)
    ensures r.nextId == t.nextId
    ensures !Stored(r.rows, key, id)
    ensures forall i :: 0 <= i < |r.rows| ==> r.rows[i] in t.rows
    ensures forall i :: 0 <= i < |t.rows| && key(t.rows[i]) != Some(id) ==> t.rows[i] in r.rows
    ensures multiset(r.rows) <= multiset(t.rows)
  {
    Seqs.FilterWithin(t.rows, Other(key, id));
    Table(Seqs.Filter(t.rows, Other(key, id)), t.nextId)
  }

  lemma DeleteAbsentIsNoOp<T>(t: Table<T>, key: T -> Option<int>, id: int)
    requires !Stored(t.rows, key, id)
    ensures DeleteById(t, key, id) == t
  {
    Seqs.FilterKeepsAll(t.rows, Other(key, id));
  }

  lemma DeleteIdempotent<T>(t: Table<T>, key: T -> Option<int>, id: int)
    ensures DeleteById(DeleteById(t, key, id), key, id) == DeleteById(t, key, id)
  {
    Seqs.FilterIdempotent(t.rows, Other(key, id));
  }

  lemma {:induction false} DeletePreservesValid<T>(t: Table<T>, key: T -> Option<int>, id: int)
    requires Valid(t, key)
    ensures Valid(DeleteById(t, key, id), key)
  {
    var r := DeleteById(t, key, id).rows;
    forall i, j | 0 <= i < j < |r|
      ensures key(r[i]) != key(r[j])
    {
      var a, b := Seqs.FilterKeepsOrder(t.rows, Other(key, id), i, j);
    }
  }

  /** `save(x)`: a row whose id is already stored is overwritten in
      place; any other row is appended under a freshly generated id. */
  function Save<T>(t: Table<T>, key: T -> Option<int>, assign: (T, int) -> T, x: T): (r: Table<T>)
    ensures key(x).Some? && Stored(t.rows, key, key(x).value) ==>
      && r.nextId == t.nextId
      && |r.rows| == |t.rows|
      && (exists i :: 0 <= i < |t.rows| && key(t.rows[i]) == key(x) && r.rows[i] == x)
      && (forall i :: 0 <= i < |t.rows| && key(t.rows[i]) != key(x) ==> r.rows[i] == t.rows[i])
    ensures !(key(x).Some? && Stored(t.rows, key, key(x).value)) ==>
      && r.nextId == t.nextId + 1
      && |r.rows| == |t.rows| + 1
      && r.rows[..|t.rows|] == t.rows
      && r.rows[|t.rows|] == assign(x, t.nextId)
  {
    var found := if key(x).Some? then IndexOfId(t.rows, key, key(x).value) else None;
    match found
    case Some(i) => Table(t.rows[i := x], t.nextId)
    case None => Table(t.rows + [assign(x, t.nextId)], t.nextId + 1)
  }

  lemma SavePreservesValid<T>(t: Table<T>, key: T -> Option<int>, assign: (T, int) -> T, x: T)
    requires Valid(t, key)
    requires key(assign(x, t.nextId)) == Some(t.nextId)
    ensures Valid(Save(t, key, assign, x), key)
  {
    var r := Save(t, key, assign, x);
    if key(x).Some? && Stored(t.rows, key, key(x).value) {
      var i :| 0 <= i < |t.rows| && key(t.rows[i]) == key(x) && r.rows[i] == x;
      assert forall j :: 0 <= j < |t.rows| && j != i ==> key(t.rows[j]) != key(x);
      assert forall j :: 0 <= j < |r.rows| ==> key(r.rows[j]) == key(t.rows[j]);
    } else {
      assert forall j :: 0 <= j < |t.rows| ==> r.rows[j] == t.rows[j];
    }
  }

  /** Reading back what was saved: an update is found under its own id,
      an insert under the id the counter handed out. */
  lemma SaveThenGet<T>(t: Table<T>, key: T -> Option<int>, assign: (T, int) -> T, x: T)
    requires Valid(t, key)
    requires key(assign(x, t.nextId)) == Some(t.nextId)
    ensures key(x).Some? && Stored(t.rows, key, key(x).value) ==>
      Get(Save(t, key, assign, x), key, key(x).value) == Success(x)
    ensures !(key(x).Some? && Stored(t.rows, key, key(x).value)) ==>
      Get(Save(t, key, assign, x), key, t.nextId) == Success(assign(x, t.nextId))
  {
    var r := Save(t, key, assign, x);
    SavePreservesValid(t, key, assign, x);
    if key(x).Some? && Stored(t.rows, key, key(x).value) {
      var i :| 0 <= i < |t.rows| && key(t.rows[i]) == key(x) && r.rows[i] == x;
      GetIsTheStoredRow(r, key, key(x).value, i);
    } else {
      GetIsTheStoredRow(r, key, t.nextId, |t.rows|);
    }
  }
}
