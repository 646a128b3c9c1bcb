/** The six JPQL queries of the post repository, each a `LIKE %k%`
    test run over the stored posts in storage order.

    A NULL column never satisfies `LIKE`, and `CONCAT` of anything with a
    NULL is NULL, so a post with a null searchable column is missed by
    the keyword query. */
module BlogRepository {
  import opened Results
  import opened Strs
  import opened Posts
  import Seqs

  /** The six queries, in the order the service tries them. */
  datatype Query = ById | ByName | ByDate | ByText | ByClientName | ByKeyword

  /** The id column rendered as text by the database. */
  function IdText(b: Blog): (r: Option<string>)
    ensures r.Some? <==> b.postId.Some?
    ensures b.postId.Some? ==> r.value == DecimalString(b.postId.value)
  {
    match b.postId
    case None => None
    case Some(n) => Some(DecimalString(n))
  }

  /** The arguments of `concat(p.post_id, '', p.post_name, '',
      p.publish_date, '', p.text, '', p.client_name)`. */
  function KeywordParts(b: Blog): seq<Option<string>> {
    [IdText(b), Some(""), b.postName, Some(""), b.publishDate, Some(""), b.text, Some(""), b.clientName]
  }

  /** The WHERE clause of each query, for keyword `k`. */
  predicate Where(q: Query, k: string, b: Blog) {
    match q
    case ById => LikeContains(SqlConcat([Some(""), IdText(b)]), k)
    case ByName => LikeContains(b.postName, k)
    case ByDate => LikeContains(b.publishDate, k)
    case ByText => LikeContains(b.text, k)
    case ByClientName => LikeContains(b.clientName, k)
    case ByKeyword => LikeContains(SqlConcat(KeywordParts(b)), k)
  }

  function WhereFn(q: Query, k: string): Blog -> bool {
    b => Where(q, k, b)
  }

  /** Runs query `q` with keyword `k`: the stored posts its WHERE clause
      accepts, each at most as often as it is stored. */
  function Run(rows: seq<Blog>, q: Query, k: string): (r: seq<Blog>)
    ensures forall i :: 0 <= i < |r| ==> r[i] in rows && Where(q, k, r[i])
    ensures forall i :: 0 <= i < |rows| && Where(q, k, rows[i]) ==> rows[i] in r
    ensures multiset(r) <= multiset(rows)
  {
    Seqs.FilterWithin(rows, WhereFn(q, k));
    Seqs.Filter(rows, WhereFn(q, k))
  }

  /** The searchable columns are all non-null. */
  predicate SearchableNonNull(b: Blog) {
    b.postId.Some? && b.postName.Some? && b.publishDate.Some? && b.text.Some? && b.clientName.Some?
  }

  /** The text the keyword query searches: the five columns glued
      together with nothing in between. */
  function SearchText(b: Blog): string
    requires SearchableNonNull(b)
  {
    DecimalString(b.postId.value) + b.postName.value + b.publishDate.value + b.text.value + b.clientName.value
  }

  /** The `''` separators add nothing: the keyword query's CONCAT is the
      plain concatenation of the five columns, or NULL if one is null. */
  lemma KeywordConcatIsPlain(b: Blog)
    ensures SearchableNonNull(b) ==> SqlConcat(KeywordParts(b)) == Some(SearchText(b))
    ensures !SearchableNonNull(b) ==> SqlConcat(KeywordParts(b)) == None
  {
    SqlConcatFive(IdText(b), b.postName, b.publishDate, b.text, b.clientName);
  }

  /** `concat('', p.post_id)` is the id text itself. */
  lemma IdConcatIsPlain(b: Blog)
    ensures SqlConcat([Some(""), IdText(b)]) == IdText(b)
  {
    SqlConcatCons(IdText(b), []);
    SqlConcatCons(Some(""), [IdText(b)]);
    if IdText(b).Some? {
      var v := IdText(b).value;
      assert "" + (v + "") == v;
    }
  }

  function SearchPostById(rows: seq<Blog>, k: string): (r: seq<Blog>)
    ensures forall i :: 0 <= i < |r| ==>
      r[i] in rows && r[i].postId.Some? && Contains(DecimalString(r[i].postId.value), k)
    ensures forall i :: 0 <= i < |rows| && rows[i].postId.Some? && Contains(DecimalString(rows[i].postId.value), k) ==>
      rows[i] in r
  {
    var r := Run(rows, ById, k);
    forall i | 0 <= i < |r|
      ensures r[i].postId.Some? && Contains(DecimalString(r[i].postId.value), k)
    {
      IdConcatIsPlain(r[i]);
    }
    forall i | 0 <= i < |rows| && rows[i].postId.Some? && Contains(DecimalString(rows[i].postId.value), k)
      ensures rows[i] in r
    {
      IdConcatIsPlain(rows[i]);
    }
    r
  }

  function SearchPostByName(rows: seq<Blog>, k: string): (r: seq<Blog>)
    ensures forall i :: 0 <= i < |r| ==> r[i] in rows && LikeContains(r[i].postName, k)
    ensures forall i :: 0 <= i < |rows| && LikeContains(rows[i].postName, k) ==> rows[i] in r
  {
    Run(rows, ByName, k)
  }

  function SearchPostByDate(rows: seq<Blog>, k: string): (r: seq<Blog>)
    ensures forall i :: 0 <= i < |r| ==> r[i] in rows && LikeContains(r[i].publishDate, k)
    ensures forall i :: 0 <= i < |rows| && LikeContains(rows[i].publishDate, k) ==> rows[i] in r
  {
    Run(rows, ByDate, k)
  }

  function SearchPostByText(rows: seq<Blog>, k: string): (r: seq<Blog>)
    ensures forall i :: 0 <= i < |r| ==> r[i] in rows && LikeContains(r[i].text, k)
    ensures forall i :: 0 <= i < |rows| && LikeContains(rows[i].text, k) ==> rows[i] in r
  {
    Run(rows, ByText, k)
  }

  function SearchPostByClientName(rows: seq<Blog>, k: string): (r: seq<Blog>)
    ensures forall i :: 0 <= i < |r| ==> r[i] in rows && LikeContains(r[i].clientName, k)
    ensures forall i :: 0 <= i < |rows| && LikeContains(rows[i].clientName, k) ==> rows[i] in r
  {
    Run(rows, ByClientName, k)
  }

  function SearchPostByKeyword(rows: seq<Blog>, k: string): (r: seq<Blog>)
    ensures forall i :: 0 <= i < |r| ==>
      r[i] in rows && SearchableNonNull(r[i]) && Contains(SearchText(r[i]), k)
    ensures forall i :: 0 <= i < |rows| && SearchableNonNull(rows[i]) && Contains(SearchText(rows[i]), k) ==>
      rows[i] in r
  {
    var r := Run(rows, ByKeyword, k);
    forall i | 0 <= i < |r|
      ensures SearchableNonNull(r[i]) && Contains(SearchText(r[i]), k)
    {
      KeywordConcatIsPlain(r[i]);
    }
    forall i | 0 <= i < |rows| && SearchableNonNull(rows[i]) && Contains(SearchText(rows[i]), k)
      ensures rows[i] in r
    {
      KeywordConcatIsPlain(rows[i]);
    }
    r
  }

  /** Each of the six repository searches is the filter by its query. */
  lemma SearchIsRun(rows: seq<Blog>, q: Query, k: string)
    ensures q == ById ==> SearchPostById(rows, k) == Run(rows, ById, k)
    ensures q == ByName ==> SearchPostByName(rows, k) == Run(rows, ByName, k)
    ensures q == ByDate ==> SearchPostByDate(rows, k) == Run(rows, ByDate, k)
    ensures q == ByText ==> SearchPostByText(rows, k) == Run(rows, ByText, k)
    ensures q == ByClientName ==> SearchPostByClientName(rows, k) == Run(rows, ByClientName, k)
    ensures q == ByKeyword ==> SearchPostByKeyword(rows, k) == Run(rows, ByKeyword, k)
  {
  }

  /** Posts that agree on everything but their two link columns. */
  predicate SameButLinks(a: Blog, b: Blog) {
    a.(vkLink := None, link := None) == b.(vkLink := None, link := None)
  }

  /** The link columns take part in no query: changing them changes no
      result beyond the links of the posts it returns. */
  lemma SearchIgnoresLinks(rows: seq<Blog>, rows': seq<Blog>, q: Query, k: string)
    requires |rows| == |rows'|
    requires forall i :: 0 <= i < |rows| ==> SameButLinks(rows[i], rows'[i])
    ensures |Run(rows, q, k)| == |Run(rows', q, k)|
    ensures forall i :: 0 <= i < |Run(rows, q, k)| ==> SameButLinks(Run(rows, q, k)[i], Run(rows', q, k)[i])
  {
    forall i | 0 <= i < |rows|
      ensures Where(q, k, rows[i]) == Where(q, k, rows'[i])
    {
      var a, b := rows[i], rows'[i];
      assert a.postId == b.postId && a.postName == b.postName && a.publishDate == b.publishDate;
      assert a.text == b.text && a.clientName == b.clientName;
      assert KeywordParts(a) == KeywordParts(b);
    }
    Seqs.FilterPointwise(rows, rows', WhereFn(q, k), WhereFn(q, k), SameButLinks);
  }

  /** A column's text is part of the keyword query's text, so a post
      found by a single-column query is found by the keyword query too,
      provided none of its searchable columns is null. */
  lemma ColumnMatchImpliesKeywordMatch(q: Query, k: string, b: Blog)
    requires Where(q, k, b)
    requires SearchableNonNull(b)
    ensures Where(ByKeyword, k, b)
  {
    KeywordConcatIsPlain(b);
    var id, n, d, t, c := DecimalString(b.postId.value), b.postName.value, b.publishDate.value, b.text.value, b.clientName.value;
    assert SearchText(b) == (((id + n) + d) + t) + c;
    match q
    case ById =>
      IdConcatIsPlain(b);
      ContainsAppend(id, n, k);
      ContainsAppend(id + n, d, k);
      ContainsAppend((id + n) + d, t, k);
      ContainsAppend(((id + n) + d) + t, c, k);
    case ByName =>
      ContainsAppend(id, n, k);
      ContainsAppend(id + n, d, k);
      ContainsAppend((id + n) + d, t, k);
      ContainsAppend(((id + n) + d) + t, c, k);
    case ByDate =>
      ContainsAppend(id + n, d, k);
      ContainsAppend((id + n) + d, t, k);
      ContainsAppend(((id + n) + d) + t, c, k);
    case ByText =>
      ContainsAppend((id + n) + d, t, k);
      ContainsAppend(((id + n) + d) + t, c, k);
    case ByClientName =>
      ContainsAppend(((id + n) + d) + t, c, k);
    case ByKeyword =>
  }

  /** Every single-column result, restricted to posts without null
      searchable columns, lies within the keyword query's result. */
  lemma ColumnSearchWithinKeywordSearch(rows: seq<Blog>, q: Query, k: string)
    ensures forall i :: 0 <= i < |Run(rows, q, k)| && SearchableNonNull(Run(rows, q, k)[i]) ==>
      Run(rows, q, k)[i] in Run(rows, ByKeyword, k)
  {
    var r := Run(rows, q, k);
    forall i | 0 <= i < |r| && SearchableNonNull(r[i])
      ensures r[i] in Run(rows, ByKeyword, k)
    {
      ColumnMatchImpliesKeywordMatch(q, k, r[i]);
      var j :| 0 <= j < |rows| && rows[j] == r[i];
    }
  }

  /** A keyword straddling the end of the post name and the start of the
      publish date matches the keyword query. */
  lemma KeywordMatchMayStraddle(b: Blog, x: string, y: string)
    requires SearchableNonNull(b)
    requires |x| <= |b.postName.value| && b.postName.value[|b.postName.value| - |x|..] == x
    requires y <= b.publishDate.value
    ensures Where(ByKeyword, x + y, b)
  {
    KeywordConcatIsPlain(b);
    var id, n, d, t, c := DecimalString(b.postId.value), b.postName.value, b.publishDate.value, b.text.value, b.clientName.value;
    var n0, d1 := n[..|n| - |x|], d[|y|..];
    assert n == n0 + x;
    assert d == y + d1;
    ContainsStraddle(id + n0, x, y, d1 + t + c);
    assert SearchText(b) == (id + n0 + x) + (y + (d1 + t + c));
  }

  /** A post with a null text column is found by name but not by the
      keyword query, because CONCAT with a NULL argument is NULL. */
  lemma NullColumnEscapesKeywordSearch()
    ensures var b := Blog(Some(1), Some("fade"), Some("2023-04-20"), None, Some("Ann"), None, None);
      Where(ByName, "fade", b) && !Where(ByKeyword, "fade", b)
  {
    var b := Blog(Some(1), Some("fade"), Some("2023-04-20"), None, Some("Ann"), None, None);
    KeywordConcatIsPlain(b);
    assert Contains("fade", "fade");
  }
}
