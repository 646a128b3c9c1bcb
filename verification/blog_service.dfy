/** The post service: CRUD pass-throughs to the post table and the
    priority-ordered search over six optional keywords.

    The service object keeps two fields, the label and the value of the
    last criterion that fired. Here they are an explicit `SearchState`
    passed into each search and returned with its result. */
module BlogService {
  import opened Results
  import opened Posts
  import opened BlogRepository
  import Tables

  /** The service's `postKeywordName` and `postKeyword` fields. */
  datatype SearchState = SearchState(keywordName: Option<string>, keyword: Option<string>)

  /** Both fields are null until a criterion first fires. */
  const Initial := SearchState(None, None)

  /** The six request parameters of a post search; any may be null. */
  datatype PostCriteria = PostCriteria(
    keywordId: Option<string>,
    keywordPostName: Option<string>,
    keywordDate: Option<string>,
    keywordText: Option<string>,
    keywordClientName: Option<string>,
    keyword: Option<string>)

  /** `!StringUtil.isNullOrEmpty(k)`: neither null nor empty. */
  predicate Present(k: Option<string>) {
    k.Some? && k.value != ""
  }

  /** The label the service records when a query fires. */
  function Label(q: Query): string {
    match q
    case ById => "keywordId"
    case ByName => "keywordPostName"
    case ByDate => "keywordDate"
    case ByText => "keywordText"
    case ByClientName => "keywordClientName"
    case ByKeyword => "keyword"
  }

  /** The state the service can be in: nothing recorded yet, or one of
      the six labels with the non-empty value that fired it. */
  predicate ValidState(st: SearchState) {
    || (st.keywordName.None? && st.keyword.None?)
    || ((exists q :: st.keywordName == Some(Label(q))) && Present(st.keyword))
  }

  /** The dispatch table: each query with its argument, highest priority
      first. */
  function Slots(c: PostCriteria): seq<(Query, Option<string>)> {
    [ (ById, c.keywordId), (ByName, c.keywordPostName), (ByDate, c.keywordDate),
      (ByText, c.keywordText), (ByClientName, c.keywordClientName), (ByKeyword, c.keyword) ]
  }

  /** Slot `i` is the first one whose argument is present. */
  ghost predicate FiresAt(slots: seq<(Query, Option<string>)>, i: int) {
    && 0 <= i < |slots|
    && Present(slots[i].1)
    && forall j :: 0 <= j < i ==> !Present(slots[j].1)
  }

  /** First match over the dispatch table: the query of the first slot
      with a present argument, and that argument. */
  function FirstPresent(slots: seq<(Query, Option<string>)>): (r: Option<(Query, string)>)
    ensures r.None? <==> forall i :: 0 <= i < |slots| ==> !Present(slots[i].1)
    ensures r.Some? ==> exists i :: FiresAt(slots, i) && slots[i] == (r.value.0, Some(r.value.1))
  {
    if slots == [] then None
    else if Present(slots[0].1) then
      assert FiresAt(slots, 0);
      Some((slots[0].0, slots[0].1.value))
    else
      var r := FirstPresent(slots[1..]);
      assert forall i :: 1 <= i < |slots| ==> slots[i] == slots[1..][i - 1];
      if r.Some? then
        assert exists i :: FiresAt(slots, i) && slots[i] == (r.value.0, Some(r.value.1)) by {
          var i :| FiresAt(slots[1..], i) && slots[1..][i] == (r.value.0, Some(r.value.1));
          assert FiresAt(slots, i + 1);
        }
        r
      else
        r
  }

  /** The slot that fires is unique, so it is the one `FirstPresent`
      returns. */
  lemma FirstPresentPicksFiringSlot(slots: seq<(Query, Option<string>)>, i: int)
    requires FiresAt(slots, i)
    ensures FirstPresent(slots) == Some((slots[i].0, slots[i].1.value))
  {
    var r := FirstPresent(slots);
    var j :| FiresAt(slots, j) && slots[j] == (r.value.0, Some(r.value.1));
    assert !(j < i) && !(i < j);
  }

  /** All six parameters are null or empty. */
  predicate NonePresent(c: PostCriteria) {
    && !Present(c.keywordId) && !Present(c.keywordPostName) && !Present(c.keywordDate)
    && !Present(c.keywordText) && !Present(c.keywordClientName) && !Present(c.keyword)
  }

  /** What a search returns: the posts to list and the service's fields
      afterwards. */
  datatype SearchOutcome = SearchOutcome(posts: seq<Blog>, state: SearchState)

  /** `listByPostCriteria`'s if-chain. The first present criterion picks
      the query and is recorded with its label; with none present every
      post is listed and the recorded criterion stays as it was. */
  function ListByPostCriteria(rows: seq<Blog>, st: SearchState, c: PostCriteria): (r: SearchOutcome)
    ensures forall i :: 0 <= i < |r.posts| ==> r.posts[i] in rows
    ensures multiset(r.posts) <= multiset(rows)
    ensures !NonePresent(c) ==>
      (exists q :: r.state.keywordName == Some(Label(q))) && Present(r.state.keyword)
    ensures NonePresent(c) ==> r == SearchOutcome(rows, st)
  {
    if Present(c.keywordId) then
      SearchOutcome(SearchPostById(rows, c.keywordId.value), SearchState(Some(Label(ById)), c.keywordId))
    else if Present(c.keywordPostName) then
      SearchOutcome(SearchPostByName(rows, c.keywordPostName.value), SearchState(Some(Label(ByName)), c.keywordPostName))
    else if Present(c.keywordDate) then
      SearchOutcome(SearchPostByDate(rows, c.keywordDate.value), SearchState(Some(Label(ByDate)), c.keywordDate))
    else if Present(c.keywordText) then
      SearchOutcome(SearchPostByText(rows, c.keywordText.value), SearchState(Some(Label(ByText)), c.keywordText))
    else if Present(c.keywordClientName) then
      SearchOutcome(SearchPostByClientName(rows, c.keywordClientName.value), SearchState(Some(Label(ByClientName)), c.keywordClientName))
    else if Present(c.keyword) then
      SearchOutcome(SearchPostByKeyword(rows, c.keyword.value), SearchState(Some(Label(ByKeyword)), c.keyword))
    else
      SearchOutcome(rows, st)
  }

  /** The reference definition: first match over the dispatch table, the
      query of the slot that fires run on its value and recorded under its
      label. */
  function Dispatch(rows: seq<Blog>, st: SearchState, c: PostCriteria): SearchOutcome {
    match FirstPresent(Slots(c))
    case Some((q, v)) => SearchOutcome(Run(rows, q, v), SearchState(Some(Label(q)), Some(v)))
    case None => SearchOutcome(rows, st)
  }

  /** The dispatch when slot `i` fires: its query on its value, recorded
      under its label. */
  lemma DispatchAt(rows: seq<Blog>, st: SearchState, c: PostCriteria, i: int)
    requires FiresAt(Slots(c), i)
    ensures var (q, v) := Slots(c)[i];
      Dispatch(rows, st, c) == SearchOutcome(Run(rows, q, v.value), SearchState(Some(Label(q)), v))
  {
    FirstPresentPicksFiringSlot(Slots(c), i);
  }

  /** When slot `i` fires, `listByPostCriteria`'s if-chain takes the
      branch of that slot: its query runs on its value and its label is recorded. */
  lemma FiringSlotDecides(rows: seq<Blog>, st: SearchState, c: PostCriteria, i: int)
    requires FiresAt(Slots(c), i)
    ensures var (q, v) := Slots(c)[i];
      ListByPostCriteria(rows, st, c) == SearchOutcome(Run(rows, q, v.value), SearchState(Some(Label(q)), v))
  {
    var s := Slots(c);
    if i == 0 {
      ChainId(rows, st, c);
    } else if i == 1 {
      assert !Present(s[0].1);
      ChainName(rows, st, c);
    } else if i == 2 {
      assert !Present(s[0].1) && !Present(s[1].1);
      ChainDate(rows, st, c);
    } else if i == 3 {
      assert !Present(s[0].1) && !Present(s[1].1) && !Present(s[2].1);
      ChainText(rows, st, c);
    } else if i == 4 {
      assert !Present(s[0].1) && !Present(s[1].1) && !Present(s[2].1) && !Present(s[3].1);
      ChainClientName(rows, st, c);
    } else {
      assert !Present(s[0].1) && !Present(s[1].1) && !Present(s[2].1) && !Present(s[3].1) && !Present(s[4].1);
      ChainKeyword(rows, st, c);
    }
  }

  // One lemma per branch of the chain: given the tests before it fail
  // and its own succeeds, the branch runs its query and records its label.

  lemma ChainId(rows: seq<Blog>, st: SearchState, c: PostCriteria)
    requires Present(c.keywordId)
    ensures ListByPostCriteria(rows, st, c) == SearchOutcome(Run(rows, ById, c.keywordId.value), SearchState(Some(Label(ById)), c.keywordId))
  {
    SearchIsRun(rows, ById, c.keywordId.value);
  }

  lemma ChainName(rows: seq<Blog>, st: SearchState, c: PostCriteria)
    requires !Present(c.keywordId) && Present(c.keywordPostName)
    ensures ListByPostCriteria(rows, st, c) == SearchOutcome(Run(rows, ByName, c.keywordPostName.value), SearchState(Some(Label(ByName)), c.keywordPostName))
  {
    SearchIsRun(rows, ByName, c.keywordPostName.value);
  }

  lemma ChainDate(rows: seq<Blog>, st: SearchState, c: PostCriteria)
    requires !Present(c.keywordId) && !Present(c.keywordPostName) && Present(c.keywordDate)
    ensures ListByPostCriteria(rows, st, c) == SearchOutcome(Run(rows, ByDate, c.keywordDate.value), SearchState(Some(Label(ByDate)), c.keywordDate))
  {
    SearchIsRun(rows, ByDate, c.keywordDate.value);
  }

  lemma ChainText(rows: seq<Blog>, st: SearchState, c: PostCriteria)
    requires !Present(c.keywordId) && !Present(c.keywordPostName) && !Present(c.keywordDate) && Present(c.keywordText)
    ensures ListByPostCriteria(rows, st, c) == SearchOutcome(Run(rows, ByText, c.keywordText.value), SearchState(Some(Label(ByText)), c.keywordText))
  {
    SearchIsRun(rows, ByText, c.keywordText.value);
  }

  lemma ChainClientName(rows: seq<Blog>, st: SearchState, c: PostCriteria)
    requires !Present(c.keywordId) && !Present(c.keywordPostName) && !Present(c.keywordDate) && !Present(c.keywordText)
    requires Present(c.keywordClientName)
    ensures ListByPostCriteria(rows, st, c) == SearchOutcome(Run(rows, ByClientName, c.keywordClientName.value), SearchState(Some(Label(ByClientName)), c.keywordClientName))
  {
    SearchIsRun(rows, ByClientName, c.keywordClientName.value);
  }

  lemma ChainKeyword(rows: seq<Blog>, st: SearchState, c: PostCriteria)
    requires !Present(c.keywordId) && !Present(c.keywordPostName) && !Present(c.keywordDate) && !Present(c.keywordText)
    requires !Present(c.keywordClientName) && Present(c.keyword)
    ensures ListByPostCriteria(rows, st, c) == SearchOutcome(Run(rows, ByKeyword, c.keyword.value), SearchState(Some(Label(ByKeyword)), c.keyword))
  {
    SearchIsRun(rows, ByKeyword, c.keyword.value);
  }

  /** `listByPostCriteria`'s if-chain is the first match over the dispatch
      table. */
  lemma ChainIsDispatch(rows: seq<Blog>, st: SearchState, c: PostCriteria)
    ensures ListByPostCriteria(rows, st, c) == Dispatch(rows, st, c)
  {
    var s := Slots(c);
    var r := FirstPresent(s);
    if r.Some? {
      var i :| FiresAt(s, i) && s[i] == (r.value.0, Some(r.value.1));
      FiringSlotDecides(rows, st, c, i);
      DispatchAt(rows, st, c, i);
    } else {
      assert !Present(s[0].1) && !Present(s[1].1) && !Present(s[2].1);
      assert !Present(s[3].1) && !Present(s[4].1) && !Present(s[5].1);
    }
  }

  /** The recorded label is only ever null or one of the six labels,
      and a recorded value is never null or empty. */
  lemma SearchKeepsStateValid(rows: seq<Blog>, st: SearchState, c: PostCriteria)
    ensures ValidState(st) ==> ValidState(ListByPostCriteria(rows, st, c).state)
  {
  }

  /** The criteria with every slot but that of query `q` made null. */
  function Only(c: PostCriteria, q: Query): (r: PostCriteria)
    ensures forall i :: 0 <= i < 6 ==> Slots(r)[i].1 == if Slots(c)[i].0 == q then Slots(c)[i].1 else None
  {
    match q
    case ById => PostCriteria(c.keywordId, None, None, None, None, None)
    case ByName => PostCriteria(None, c.keywordPostName, None, None, None, None)
    case ByDate => PostCriteria(None, None, c.keywordDate, None, None, None)
    case ByText => PostCriteria(None, None, None, c.keywordText, None, None)
    case ByClientName => PostCriteria(None, None, None, None, c.keywordClientName, None)
    case ByKeyword => PostCriteria(None, None, None, None, None, c.keyword)
  }

  /** When several criteria are present, the search behaves exactly as if
      only the highest-priority one had been given. */
  lemma {:induction false} HighestPriorityAlone(rows: seq<Blog>, st: SearchState, c: PostCriteria, i: int)
    requires FiresAt(Slots(c), i)
    ensures ListByPostCriteria(rows, st, c) == ListByPostCriteria(rows, st, Only(c, Slots(c)[i].0))
  {
    var c' := Only(c, Slots(c)[i].0);
    OnlyKeepsFiringSlot(c, i);
    FiringSlotDecides(rows, st, c, i);
    FiringSlotDecides(rows, st, c', i);
  }

  /** Keeping only the slot that fires keeps it firing, with the same
      query and value. */
  lemma OnlyKeepsFiringSlot(c: PostCriteria, i: int)
    requires FiresAt(Slots(c), i)
    ensures FiresAt(Slots(Only(c, Slots(c)[i].0)), i)
    ensures Slots(Only(c, Slots(c)[i].0))[i] == Slots(c)[i]
  {
    var s, s' := Slots(c), Slots(Only(c, Slots(c)[i].0));
    forall j | 0 <= j < i
      ensures !Present(s'[j].1)
    {
      assert s[j].0 != s[i].0;
    }
  }

  /** Criteria after the one that fires are ignored: changing them, in any
      way, changes neither the posts nor the recorded criterion. */
  lemma {:induction false} LaterCriteriaIgnored(rows: seq<Blog>, st: SearchState, c: PostCriteria, c': PostCriteria, i: int)
    requires FiresAt(Slots(c), i)
    requires forall j :: 0 <= j <= i ==> Slots(c')[j] == Slots(c)[j]
    ensures ListByPostCriteria(rows, st, c') == ListByPostCriteria(rows, st, c)
  {
    assert FiresAt(Slots(c'), i);
    FiringSlotDecides(rows, st, c, i);
    FiringSlotDecides(rows, st, c', i);
  }

  /** An empty parameter is read as a null one. */
  function NullIfEmpty(k: Option<string>): (r: Option<string>)
    ensures Present(r) == Present(k)
    ensures r.None? <==> !Present(k)
  {
    if k == Some("") then None else k
  }

  function NullIfEmptyAll(c: PostCriteria): PostCriteria {
    PostCriteria(NullIfEmpty(c.keywordId), NullIfEmpty(c.keywordPostName), NullIfEmpty(c.keywordDate),
      NullIfEmpty(c.keywordText), NullIfEmpty(c.keywordClientName), NullIfEmpty(c.keyword))
  }

  /** Replacing every empty parameter by null changes nothing: `""` never
      selects a branch. */
  lemma EmptyIsAbsent(rows: seq<Blog>, st: SearchState, c: PostCriteria)
    ensures ListByPostCriteria(rows, st, NullIfEmptyAll(c)) == ListByPostCriteria(rows, st, c)
  {
  }

  // ---------------------------------------------------------------
  // CRUD pass-throughs

  /** `get(id)`: the stored post with that id; with none, the
      `NoSuchElementException` of `Optional.get`, not null. */
  function Get(t: Tables.Table<Blog>, id: int): (r: Result<Blog, Tables.LookupError>)
    ensures r.Success? <==> exists i :: 0 <= i < |t.rows| && t.rows[i].postId == Some(id)
    ensures r.Success? ==> r.value in t.rows && r.value.postId == Some(id)
    ensures r.Failure? ==> r.error == Tables.NoSuchElement
  {
    Tables.Get(t, IdOf, id)
  }

  /** `delete(id)`: the post with that id goes; every other post stays. */
  function Delete(t: Tables.Table<Blog>, id: int): (r: Tables.Table<Blog>)
    ensures forall i :: 0 <= i < |r.rows| ==> r.rows[i] in t.rows && r.rows[i].postId != Some(id)
    ensures forall i :: 0 <= i < |t.rows| && t.rows[i].postId != Some(id) ==> t.rows[i] in r.rows
    ensures multiset(r.rows) <= multiset(t.rows)
    ensures r.nextId == t.nextId
  {
    Tables.DeleteById(t, IdOf, id)
  }

  /** `save(blog)`: an update of the stored post with the same id, or an
      insert under a fresh id. */
  function Save(t: Tables.Table<Blog>, b: Blog): (r: Tables.Table<Blog>)
    ensures Tables.Valid(t, IdOf) ==> Tables.Valid(r, IdOf)
    ensures b.postId.Some? && Tables.Stored(t.rows, IdOf, b.postId.value) ==>
      && |r.rows| == |t.rows| && r.nextId == t.nextId
      && (exists i :: 0 <= i < |t.rows| && t.rows[i].postId == b.postId && r.rows[i] == b)
      && (forall i :: 0 <= i < |t.rows| && t.rows[i].postId != b.postId ==> r.rows[i] == t.rows[i])
      && (Tables.Valid(t, IdOf) ==> Get(r, b.postId.value) == Success(b))
    ensures !(b.postId.Some? && Tables.Stored(t.rows, IdOf, b.postId.value)) ==>
      && |r.rows| == |t.rows| + 1 && r.nextId == t.nextId + 1
      && r.rows[..|t.rows|] == t.rows && r.rows[|t.rows|] == b.(postId := Some(t.nextId))
      && (Tables.Valid(t, IdOf) ==> Get(r, t.nextId) == Success(b.(postId := Some(t.nextId))))
  {
    SaveFacts(t, b);
    Tables.Save(t, IdOf, WithId, b)
  }

  lemma SaveFacts(t: Tables.Table<Blog>, b: Blog)
    ensures Tables.Valid(t, IdOf) ==> Tables.Valid(Tables.Save(t, IdOf, WithId, b), IdOf)
    ensures Tables.Valid(t, IdOf) && b.postId.Some? && Tables.Stored(t.rows, IdOf, b.postId.value) ==>
      Tables.Get(Tables.Save(t, IdOf, WithId, b), IdOf, b.postId.value) == Success(b)
    ensures Tables.Valid(t, IdOf) && !(b.postId.Some? && Tables.Stored(t.rows, IdOf, b.postId.value)) ==>
      Tables.Get(Tables.Save(t, IdOf, WithId, b), IdOf, t.nextId) == Success(WithId(b, t.nextId))
  {
    if Tables.Valid(t, IdOf) {
      Tables.SavePreservesValid(t, IdOf, WithId, b);
      Tables.SaveThenGet(t, IdOf, WithId, b);
    }
  }
}
