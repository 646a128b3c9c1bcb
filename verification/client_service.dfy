/** The client service: the home-page listing, which searches only when
    a keyword is given at all, and CRUD pass-throughs to the client
    table. */
module ClientService {
  import opened Results
  import opened Strs
  import opened ClientRepository
  import Tables

  /** `listAll(keyword)`: a null keyword lists every stored client; any
      other keyword, the empty one included, goes through `search`. */
  function ListAll(t: Tables.Table<Client>, keyword: Option<string>): (r: seq<Client>)
    ensures keyword.None? ==> r == t.rows
    ensures keyword.Some? ==> forall i :: 0 <= i < |r| ==>
      r[i] in t.rows && SearchableNonNull(r[i]) && Contains(SearchText(r[i]), keyword.value)
    ensures keyword.Some? ==> forall i :: 0 <= i < |t.rows| ==>
      (SearchableNonNull(t.rows[i]) && Contains(SearchText(t.rows[i]), keyword.value) ==> t.rows[i] in r)
    ensures multiset(r) <= multiset(t.rows)
  {
    match keyword
    case None => t.rows
    case Some(k) => Search(t.rows, k)
  }

  /** Whatever the keyword, the listing holds only stored clients, each
      at most as often as it is stored. */
  lemma ListAllWithinAll(t: Tables.Table<Client>, keyword: Option<string>)
    ensures forall i :: 0 <= i < |ListAll(t, keyword)| ==> ListAll(t, keyword)[i] in ListAll(t, None)
    ensures multiset(ListAll(t, keyword)) <= multiset(ListAll(t, None))
  {
  }

  /** Unlike the post search, an empty keyword is not read as absent: it
      still goes through the CONCAT search, which drops any client with a
      null searched column. With no such client stored, it lists them
      all. */
  lemma EmptyKeywordListsAll(t: Tables.Table<Client>)
    ensures forall i :: 0 <= i < |t.rows| && SearchableNonNull(t.rows[i]) ==> t.rows[i] in ListAll(t, Some(""))
    ensures (forall i :: 0 <= i < |t.rows| ==> SearchableNonNull(t.rows[i])) ==> ListAll(t, Some("")) == ListAll(t, None)
  {
    SearchEmptyKeyword(t.rows);
  }

  /** A client with a null searched column is listed without a keyword
      and with the empty keyword is not. */
  lemma EmptyKeywordDropsNullColumns(t: Tables.Table<Client>, i: int)
    requires 0 <= i < |t.rows| && !SearchableNonNull(t.rows[i])
    ensures t.rows[i] in ListAll(t, None)
    ensures t.rows[i] !in ListAll(t, Some(""))
  {
  }

  /** `get(id)`: the stored client with that id; with none, the
      `NoSuchElementException` of `Optional.get`, not null. */
  function Get(t: Tables.Table<Client>, id: int): (r: Result<Client, Tables.LookupError>)
    ensures r.Success? <==> exists i :: 0 <= i < |t.rows| && t.rows[i].id == Some(id)
    ensures r.Success? ==> r.value in t.rows && r.value.id == Some(id)
    ensures r.Failure? ==> r.error == Tables.NoSuchElement
  {
    Tables.Get(t, IdOf, id)
  }

  /** `delete(id)`: the client with that id goes; every other client
      stays. */
  function Delete(t: Tables.Table<Client>, id: int): (r: Tables.Table<Client>)
    ensures forall i :: 0 <= i < |r.rows| ==> r.rows[i] in t.rows && r.rows[i].id != Some(id)
    ensures forall i :: 0 <= i < |t.rows| && t.rows[i].id != Some(id) ==> t.rows[i] in r.rows
    ensures multiset(r.rows) <= multiset(t.rows)
    ensures r.nextId == t.nextId
  {
    Tables.DeleteById(t, IdOf, id)
  }

  /** `save(client)`: a client whose id is stored replaces that record in
      place; any other is added once, under a fresh id. */
  function Save(t: Tables.Table<Client>, c: Client): (r: Tables.Table<Client>)
    ensures Tables.Valid(t, IdOf) ==> Tables.Valid(r, IdOf)
    ensures c.id.Some? && Tables.Stored(t.rows, IdOf, c.id.value) ==>
      && |r.rows| == |t.rows| && r.nextId == t.nextId
      && (exists i :: 0 <= i < |t.rows| && t.rows[i].id == c.id && r.rows[i] == c)
      && (forall i :: 0 <= i < |t.rows| && t.rows[i].id != c.id ==> r.rows[i] == t.rows[i])
      && (Tables.Valid(t, IdOf) ==> Get(r, c.id.value) == Success(c))
    ensures !(c.id.Some? && Tables.Stored(t.rows, IdOf, c.id.value)) ==>
      && |r.rows| == |t.rows| + 1 && r.nextId == t.nextId + 1
      && r.rows[..|t.rows|] == t.rows && r.rows[|t.rows|] == c.(id := Some(t.nextId))
      && (Tables.Valid(t, IdOf) ==> Get(r, t.nextId) == Success(c.(id := Some(t.nextId))))
  {
    SaveFacts(t, c);
    Tables.Save(t, IdOf, WithId, c)
  }

  lemma SaveFacts(t: Tables.Table<Client>, c: Client)
    ensures Tables.Valid(t, IdOf) ==> Tables.Valid(Tables.Save(t, IdOf, WithId, c), IdOf)
    ensures Tables.Valid(t, IdOf) && c.id.Some? && Tables.Stored(t.rows, IdOf, c.id.value) ==>
      Tables.Get(Tables.Save(t, IdOf, WithId, c), IdOf, c.id.value) == Success(c)
    ensures Tables.Valid(t, IdOf) && !(c.id.Some? && Tables.Stored(t.rows, IdOf, c.id.value)) ==>
      Tables.Get(Tables.Save(t, IdOf, WithId, c), IdOf, t.nextId) == Success(WithId(c, t.nextId))
  {
    if Tables.Valid(t, IdOf) {
      Tables.SavePreservesValid(t, IdOf, WithId, c);
      Tables.SaveThenGet(t, IdOf, WithId, c);
    }
  }
}
