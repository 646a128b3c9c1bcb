/** String handling shared by the searches and the record renderings:
    the substring test behind `LIKE %k%`, the decimal rendering of a
    `Long` id, SQL `CONCAT` with its NULL propagation, and Java's
    rendering of a possibly-null value inside a string concatenation. */
module Strs {
  import opened Results

  /** `k` occurs in `s` starting at index `i`. */
  ghost predicate OccursAt(s: string, k: string, i: int) {
    0 <= i && i + |k| <= |s| && s[i..i + |k|] == k
  }

  /** `s LIKE '%k%'` for a keyword without wildcard characters: `k` is
      a contiguous piece of `s`. */
  predicate Contains(s: string, k: string)
    decreases |s|
  {
    k <= s || (s != [] && Contains(s[1..], k))
  }

  /** The recursive test agrees with the index-based reading of
      "substring", in both directions. */
  lemma {:induction false} ContainsIffOccurs(s: string, k: string)
    ensures Contains(s, k) <==> exists i :: OccursAt(s, k, i)
    decreases |s|
  {
    if Contains(s, k) {
      if k <= s {
        assert OccursAt(s, k, 0);
      } else {
        ContainsIffOccurs(s[1..], k);
        var i :| OccursAt(s[1..], k, i);
        TailSlice(s, i, |k|);
        assert OccursAt(s, k, i + 1);
      }
    }
    if exists i :: OccursAt(s, k, i) {
      var i :| OccursAt(s, k, i);
      if i == 0 {
        assert k <= s;
      } else {
        TailSlice(s, i - 1, |k|);
        assert OccursAt(s[1..], k, i - 1);
        ContainsIffOccurs(s[1..], k);
      }
    }
  }

  /** A slice of the tail is the slice one further along. */
  lemma TailSlice(s: string, i: int, n: int)
    requires 0 <= i && 0 <= n && i + n < |s|
    ensures s[1..][i..i + n] == s[i + 1..i + 1 + n]
  {
    var x, y := s[1..][i..i + n], s[i + 1..i + 1 + n];
    assert |x| == |y|;
    forall j | 0 <= j < n
      ensures x[j] == y[j]
    {
      assert x[j] == s[1..][i + j] == s[i + 1 + j];
    }
  }

  /** An occurrence inside either operand is an occurrence inside the
      concatenation. */
  lemma ContainsAppend(a: string, b: string, k: string)
    ensures Contains(a, k) ==> Contains(a + b, k)
    ensures Contains(b, k) ==> Contains(a + b, k)
  {
    if Contains(a, k) {
      ContainsIffOccurs(a, k);
      var i :| OccursAt(a, k, i);
      OccursInFront(a, b, k, i);
    }
    if Contains(b, k) {
      ContainsIffOccurs(b, k);
      var i :| OccursAt(b, k, i);
      OccursBehind(a, b, k, i);
    }
  }

  lemma OccursInFront(a: string, b: string, k: string, i: int)
    requires OccursAt(a, k, i)
    ensures Contains(a + b, k)
  {
    assert (a + b)[i..i + |k|] == a[i..i + |k|];
    assert OccursAt(a + b, k, i);
    ContainsIffOccurs(a + b, k);
  }

  lemma OccursBehind(a: string, b: string, k: string, i: int)
    requires OccursAt(b, k, i)
    ensures Contains(a + b, k)
  {
    assert (a + b)[|a| + i..|a| + i + |k|] == b[i..i + |k|];
    assert OccursAt(a + b, k, |a| + i);
    ContainsIffOccurs(a + b, k);
  }

  /** A keyword made of the end of one piece and the start of the next
      occurs in their concatenation. */
  lemma ContainsStraddle(a: string, x: string, y: string, b: string)
    ensures Contains((a + x) + (y + b), x + y)
  {
    assert (a + x) + (y + b) == a + ((x + y) + b);
    ContainsIffOccurs(x + y, x + y);
    assert OccursAt(x + y, x + y, 0);
    ContainsAppend(x + y, b, x + y);
    ContainsAppend(a, (x + y) + b, x + y);
  }

  /** Two comma-free fields that both follow the same head and precede a
      comma in the same string are equal. */
  lemma CommaFreeFieldsAgree(h: string, x: string, y: string, r: string)
    requires ',' !in x && ',' !in y
    requires h + x + [','] <= r && h + y + [','] <= r
    ensures x == y
  {
    var n := |h|;
    if |x| < |y| {
      CommaInLonger(h, x, y, r);
      assert false;
    } else if |y| < |x| {
      CommaInLonger(h, y, x, r);
      assert false;
    } else {
      assert x == (h + x + [','])[n..n + |x|] == r[n..n + |x|];
      assert y == (h + y + [','])[n..n + |y|] == r[n..n + |y|];
    }
  }

  /** Of two fields after the same head, each followed by a comma, the
      longer one holds the shorter one's comma. */
  lemma CommaInLonger(h: string, x: string, y: string, r: string)
    requires h + x + [','] <= r && h + y + [','] <= r && |x| < |y|
    ensures ',' in y
  {
    var n := |h|;
    assert r[n + |x|] == (h + x + [','])[n + |x|] == ',';
    assert r[n + |x|] == (h + y + [','])[n + |x|] == y[|x|];
    assert y[|x|] in y;
  }

  // ---------------------------------------------------------------
  // Decimal rendering of a Long id

  predicate IsDigit(c: char) {
    '0' <= c <= '9'
  }

  function DigitChar(d: nat): (c: char)
    requires d < 10
    ensures IsDigit(c)
  {
    (48 + d) as char
  }

  function DigitValue(c: char): (d: nat)
    requires IsDigit(c)
    ensures d < 10
  {
    (c as int) - 48
  }

  /** The shortest decimal numeral of `n`. */
  function Digits(n: nat): (r: string)
    ensures 1 <= |r|
    ensures forall i :: 0 <= i < |r| ==> IsDigit(r[i])
    ensures n > 0 ==> r[0] != '0'
    decreases n
  {
    if n < 10 then [DigitChar(n)] else Digits(n / 10) + [DigitChar(n % 10)]
  }

  /** What SQL gives for a `Long` cast to text: an optional minus sign
      followed by the shortest numeral of the magnitude. */
  function DecimalString(n: int): (r: string)
    ensures 1 <= |r|
    ensures ',' !in r
  {
    if n < 0 then "-" + Digits(-n) else Digits(n)
  }

  function ParseDigits(s: string): nat
    requires forall i :: 0 <= i < |s| ==> IsDigit(s[i])
  {
    if s == [] then 0 else 10 * ParseDigits(s[..|s| - 1]) + DigitValue(s[|s| - 1])
  }

  /** Reads back a numeral written by `DecimalString`. */
  function ParseDecimal(s: string): Option<int> {
    if |s| > 0 && s[0] == '-' then
      if |s| > 1 && forall i :: 1 <= i < |s| ==> IsDigit(s[i]) then Some(0 - (ParseDigits(s[1..]) as int)) else None
    else if |s| > 0 && forall i :: 0 <= i < |s| ==> IsDigit(s[i]) then Some(ParseDigits(s) as int)
    else None
  }

  lemma {:induction false} ParseDigitsInverse(n: nat)
    ensures ParseDigits(Digits(n)) == n
    decreases n
  {
    var r := Digits(n);
    if n >= 10 {
      ParseDigitsInverse(n / 10);
      assert r[..|r| - 1] == Digits(n / 10);
    }
  }

  /** The id rendering loses nothing: reading it back gives the id. */
  lemma DecimalRoundTrip(n: int)
    ensures ParseDecimal(DecimalString(n)) == Some(n)
  {
    if n < 0 {
      NegativeRoundTrip(n);
    } else {
      var d := Digits(n);
      ParseDigitsInverse(n);
      assert IsDigit(d[0]);
    }
  }

  lemma NegativeRoundTrip(n: int)
    requires n < 0
    ensures ParseDecimal(DecimalString(n)) == Some(n)
  {
    var d := Digits(-n);
    ParseDigitsInverse(-n);
    assert DecimalString(n) == ['-'] + d;
    ParseSigned(d);
  }

  /** A minus sign followed by digits reads as the negated number. */
  lemma ParseSigned(d: string)
    requires d != [] && forall i :: 0 <= i < |d| ==> IsDigit(d[i])
    ensures ParseDecimal(['-'] + d) == Some(0 - (ParseDigits(d) as int))
  {
    var s := ['-'] + d;
    assert s[0] == '-' && s[1..] == d;
    forall i | 1 <= i < |s|
      ensures IsDigit(s[i])
    {
      assert s[i] == d[i - 1];
    }
  }

  // ---------------------------------------------------------------
  // SQL CONCAT and Java string concatenation

  /** SQL `CONCAT(p0, p1, ...)`: NULL as soon as one argument is NULL,
      otherwise the arguments joined with nothing in between. */
  function SqlConcat(parts: seq<Option<string>>): (r: Option<string>)
    ensures r.Some? <==> forall i :: 0 <= i < |parts| ==> parts[i].Some?
  {
    if parts == [] then Some("") else Concat2(parts[0], SqlConcat(parts[1..]))
  }

  function Concat2(a: Option<string>, b: Option<string>): Option<string> {
    if a.Some? && b.Some? then Some(a.value + b.value) else None
  }

  /** One step of `SqlConcat` on a list written out as a display. */
  lemma SqlConcatCons(h: Option<string>, rest: seq<Option<string>>)
    ensures SqlConcat([h] + rest) == Concat2(h, SqlConcat(rest))
  {
    assert ([h] + rest)[1..] == rest;
  }

  /** A `CONCAT` of five arguments with `''` between neighbours: the five
      glued together, or NULL when one of them is. */
  lemma SqlConcatFive(a: Option<string>, b: Option<string>, c: Option<string>, d: Option<string>, e: Option<string>)
    ensures a.Some? && b.Some? && c.Some? && d.Some? && e.Some? ==>
      SqlConcat([a, Some(""), b, Some(""), c, Some(""), d, Some(""), e]) == Some(a.value + b.value + c.value + d.value + e.value)
    ensures !(a.Some? && b.Some? && c.Some? && d.Some? && e.Some?) ==>
      SqlConcat([a, Some(""), b, Some(""), c, Some(""), d, Some(""), e]) == None
  {
    var p := [a, Some(""), b, Some(""), c, Some(""), d, Some(""), e];
    if a.Some? && b.Some? && c.Some? && d.Some? && e.Some? {
      SqlConcatFiveValue(a.value, b.value, c.value, d.value, e.value);
    } else {
      assert p[0] == a && p[2] == b && p[4] == c && p[6] == d && p[8] == e;
    }
  }

  lemma SqlConcatFiveValue(a: string, b: string, c: string, d: string, e: string)
    ensures SqlConcat([Some(a), Some(""), Some(b), Some(""), Some(c), Some(""), Some(d), Some(""), Some(e)]) == Some(a + b + c + d + e)
  {
    var t4: seq<Option<string>> := [Some(""), Some(e)];
    var t3 := [Some(""), Some(d)] + t4;
    var t2 := [Some(""), Some(c)] + t3;
    var t1 := [Some(""), Some(b)] + t2;
    SqlSepLast(e);
    SqlSepStep(d, t4, e);
    SqlSepStep(c, t3, d + e);
    SqlSepStep(b, t2, c + (d + e));
    SqlConcatCons(Some(a), t1);
    assert [Some(a), Some(""), Some(b), Some(""), Some(c), Some(""), Some(d), Some(""), Some(e)] == [Some(a)] + t1;
    Glue5(a, b, c, d, e);
  }

  lemma SqlSepLast(e: string)
    ensures SqlConcat([Some(""), Some(e)]) == Some(e)
  {
    SqlConcatCons(Some(e), []);
    assert [Some(e)] + [] == [Some(e)];
    assert e + "" == e;
    SqlConcatCons(Some(""), [Some(e)]);
    assert [Some("")] + [Some(e)] == [Some(""), Some(e)];
    assert "" + e == e;
  }

  /** A `''` and a non-null argument in front of the rest. */
  lemma SqlSepStep(x: string, rest: seq<Option<string>>, v: string)
    requires SqlConcat(rest) == Some(v)
    ensures SqlConcat([Some(""), Some(x)] + rest) == Some(x + v)
  {
    SqlConcatCons(Some(x), rest);
    assert [Some(""), Some(x)] + rest == [Some("")] + ([Some(x)] + rest);
    SqlConcatCons(Some(""), [Some(x)] + rest);
    assert "" + (x + v) == x + v;
  }

  lemma Glue5(a: string, b: string, c: string, d: string, e: string)
    ensures a + (b + (c + (d + e))) == a + b + c + d + e
  {
    assert c + (d + e) == (c + d) + e;
    assert b + ((c + d) + e) == (b + (c + d)) + e;
    assert b + (c + d) == (b + c) + d;
    assert a + (((b + c) + d) + e) == (a + ((b + c) + d)) + e;
    assert a + ((b + c) + d) == (a + (b + c)) + d;
    assert a + (b + c) == (a + b) + c;
  }

  /** `column LIKE '%k%'` on a nullable column: a NULL column never
      satisfies the predicate. */
  predicate LikeContains(column: Option<string>, k: string) {
    column.Some? && Contains(column.value, k)
  }

  /** How Java renders a possibly-null value inside `"..." + x`. */
  function JavaText(x: Option<string>): string {
    match x
    case None => "null"
    case Some(s) => s
  }

  /** How Java renders a possibly-null `Long` inside `"..." + x`. */
  function JavaLongText(x: Option<int>): (r: string)
    ensures ',' !in r
  {
    match x
    case None => "null"
    case Some(n) => DecimalString(n)
  }
}
