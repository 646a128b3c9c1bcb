/** The client entity and the one JPQL query of the client repository:
    `concat(p.id, '', p.full_name, '', p.visit_date, '', p.service, '',
    p.master_name) like %k%`, run over the stored clients in storage
    order. */
module ClientRepository {
  import opened Results
  import opened Strs
  import Seqs

  /** One row of the `client` table; every column may be null until the
      row is stored, when `id` is filled in by the identity column. */
  datatype Client = Client(
    id: Option<int>,
    fullName: Option<string>,
    visitDate: Option<string>,
    service: Option<string>,
    masterName: Option<string>)

  /** `new Client()`: every column null. */
  function NewClient(): (c: Client)
    ensures c.id.None? && c.fullName.None? && c.visitDate.None? && c.service.None? && c.masterName.None?
  {
    Client(None, None, None, None, None)
  }

  function IdOf(c: Client): Option<int> {
    c.id
  }

  /** What the identity column does to a client on insert. */
  function WithId(c: Client, id: int): (r: Client)
    ensures IdOf(r) == Some(id)
    ensures r.fullName == c.fullName && r.visitDate == c.visitDate
    ensures r.service == c.service && r.masterName == c.masterName
  {
    c.(id := Some(id))
  }

  function IdText(c: Client): Option<string> {
    match c.id
    case None => None
    case Some(n) => Some(DecimalString(n))
  }

  /** The arguments of the query's CONCAT, `''` separators included. */
  function SearchParts(c: Client): seq<Option<string>> {
    [IdText(c), Some(""), c.fullName, Some(""), c.visitDate, Some(""), c.service, Some(""), c.masterName]
  }

  predicate Where(k: string, c: Client) {
    LikeContains(SqlConcat(SearchParts(c)), k)
  }

  /** All five searched columns are non-null. */
  predicate SearchableNonNull(c: Client) {
    c.id.Some? && c.fullName.Some? && c.visitDate.Some? && c.service.Some? && c.masterName.Some?
  }

  /** The five columns glued together with nothing in between. */
  function SearchText(c: Client): string
    requires SearchableNonNull(c)
  {
    DecimalString(c.id.value) + c.fullName.value + c.visitDate.value + c.service.value + c.masterName.value
  }

  /** The `''` separators add nothing; a null column makes the whole
      CONCAT null. */
  lemma SearchConcatIsPlain(c: Client)
    ensures SearchableNonNull(c) ==> SqlConcat(SearchParts(c)) == Some(SearchText(c))
    ensures !SearchableNonNull(c) ==> SqlConcat(SearchParts(c)) == None
  {
    SqlConcatFive(IdText(c), c.fullName, c.visitDate, c.service, c.masterName);
  }

  /** `search(k)`: exactly the stored clients whose five columns, glued
      together, contain `k`, each at most as often as it is stored. */
  function Search(rows: seq<Client>, k: string): (r: seq<Client>)
    ensures forall i :: 0 <= i < |r| ==> r[i] in rows && SearchableNonNull(r[i]) && Contains(SearchText(r[i]), k)
    ensures forall i :: 0 <= i < |rows| && SearchableNonNull(rows[i]) && Contains(SearchText(rows[i]), k) ==>
      rows[i] in r
    ensures multiset(r) <= multiset(rows)
  {
    var r := Seqs.Filter(rows, c => Where(k, c));
    Seqs.FilterWithin(rows, c => Where(k, c));
    forall i | 0 <= i < |r|
      ensures SearchableNonNull(r[i]) && Contains(SearchText(r[i]), k)
    {
      SearchConcatIsPlain(r[i]);
    }
    forall i | 0 <= i < |rows| && SearchableNonNull(rows[i]) && Contains(SearchText(rows[i]), k)
      ensures rows[i] in r
    {
      SearchConcatIsPlain(rows[i]);
    }
    r
  }

  /** The empty keyword finds every client whose searched columns are
      all non-null; with no null columns stored, that is every client,
      in storage order. */
  lemma SearchEmptyKeyword(rows: seq<Client>)
    ensures forall i :: 0 <= i < |rows| && SearchableNonNull(rows[i]) ==> rows[i] in Search(rows, "")
    ensures (forall i :: 0 <= i < |rows| ==> SearchableNonNull(rows[i])) ==> Search(rows, "") == rows
  {
    forall c: Client {
      SearchConcatIsPlain(c);
    }
    if forall i :: 0 <= i < |rows| ==> SearchableNonNull(rows[i]) {
      Seqs.FilterKeepsAll(rows, c => Where("", c));
    }
  }

  /** A keyword made of the end of the full name and the start of the
      visit date still matches: the `''` separators leave no gap. */
  lemma SearchMayStraddle(c: Client, x: string, y: string)
    requires SearchableNonNull(c)
    requires |x| <= |c.fullName.value| && c.fullName.value[|c.fullName.value| - |x|..] == x
    requires y <= c.visitDate.value
    ensures Where(x + y, c)
  {
    SearchConcatIsPlain(c);
    var id, n, d, s, m := DecimalString(c.id.value), c.fullName.value, c.visitDate.value, c.service.value, c.masterName.value;
    var n0, d1 := n[..|n| - |x|], d[|y|..];
    assert n == n0 + x;
    assert d == y + d1;
    ContainsStraddle(id + n0, x, y, d1 + s + m);
    assert SearchText(c) == (id + n0 + x) + (y + (d1 + s + m));
  }

  /** The worked example: of "Ann Lee" and "Bo Ray", "Lee" finds only the
      first. */
  lemma SearchExample(ann: Client, bo: Client)
    requires ann == Client(Some(1), Some("Ann Lee"), Some("2023-04-20"), Some("fade"), Some("Max"))
    requires bo == Client(Some(2), Some("Bo Ray"), Some("2023-04-21"), Some("shave"), Some("Max"))
    ensures Search([ann, bo], "Lee") == [ann]
  {
    ExampleMatches(ann, bo);
    Seqs.FilterPair(ann, bo, c => Where("Lee", c));
  }

  lemma ExampleMatches(ann: Client, bo: Client)
    requires ann == Client(Some(1), Some("Ann Lee"), Some("2023-04-20"), Some("fade"), Some("Max"))
    requires bo == Client(Some(2), Some("Bo Ray"), Some("2023-04-21"), Some("shave"), Some("Max"))
    ensures Where("Lee", ann) && !Where("Lee", bo)
  {
    ExampleFirstMatches(ann);
    ExampleSecondMisses(bo);
  }

  lemma ExampleFirstMatches(ann: Client)
    requires ann == Client(Some(1), Some("Ann Lee"), Some("2023-04-20"), Some("fade"), Some("Max"))
    ensures Where("Lee", ann)
  {
    var n := ann.fullName.value;
    assert n == "Ann " + "Lee";
    ContainsStraddle("Ann ", "Lee", "", "");
    assert Contains(n, "Lee");
    NameFound(ann, "Lee");
  }

  /** A client whose full name contains the keyword is found by it. */
  lemma NameFound(c: Client, k: string)
    requires SearchableNonNull(c) && Contains(c.fullName.value, k)
    ensures Where(k, c)
  {
    SearchConcatIsPlain(c);
    var id, n, d, s, m := DecimalString(c.id.value), c.fullName.value, c.visitDate.value, c.service.value, c.masterName.value;
    assert SearchText(c) == id + (n + (d + s + m));
    ContainsAppend(n, d + s + m, k);
    ContainsAppend(id, n + (d + s + m), k);
  }

  /** A one-digit id is written as that digit alone. */
  lemma OneDigit(n: int)
    requires 0 <= n < 10
    ensures DecimalString(n) == [DigitChar(n)]
  {
  }

  lemma ExampleSecondMisses(bo: Client)
    requires bo == Client(Some(2), Some("Bo Ray"), Some("2023-04-21"), Some("shave"), Some("Max"))
    ensures !Where("Lee", bo)
  {
    OneDigit(2);
    LetterMissing(bo, "Lee", 'L');
  }

  /** A client none of whose columns holds a letter of the keyword is not
      found by it. */
  lemma LetterMissing(c: Client, k: string, ch: char)
    requires SearchableNonNull(c) && ch in k && ch !in DecimalString(c.id.value)
    requires ch !in c.fullName.value && ch !in c.visitDate.value && ch !in c.service.value && ch !in c.masterName.value
    ensures !Where(k, c)
  {
    SearchConcatIsPlain(c);
    NoLetter(SearchText(c), k, ch);
  }

  /** A keyword with a letter the text lacks does not occur in it. */
  lemma NoLetter(s: string, k: string, ch: char)
    requires ch in k && ch !in s
    ensures !Contains(s, k)
  {
    ContainsIffOccurs(s, k);
  }
}
