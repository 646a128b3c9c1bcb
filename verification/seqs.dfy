/** Order-preserving selection from a sequence: the shape every
    repository query takes over the stored rows. */
module Seqs {

  /** The elements of `s` that satisfy `keep`, in their original order. */
  function Filter<T>(s: seq<T>, keep: T -> bool): (r: seq<T>)
    ensures |r| <= |s|
    ensures forall i :: 0 <= i < |r| ==> keep(r[i])
    ensures forall i :: 0 <= i < |s| && keep(s[i]) ==> s[i] in r
    ensures multiset(r) <= multiset(s)
  {
    if s == [] then []
    else
      var rest := Filter(s[1..], keep);
      HeadTail(s);
      if keep(s[0]) then [s[0]] + rest else rest
  }

  /** Everything selected comes from the input. */
  lemma FilterWithin<T>(s: seq<T>, keep: T -> bool)
    ensures forall i :: 0 <= i < |Filter(s, keep)| ==> Filter(s, keep)[i] in s
  {
    var r := Filter(s, keep);
    forall i | 0 <= i < |r|
      ensures r[i] in s
    {
      assert r[i] in multiset(r);
    }
  }

  /** A non-empty sequence is its head followed by its tail. */
  lemma HeadTail<T>(s: seq<T>)
    requires s != []
    ensures s == [s[0]] + s[1..]
    ensures multiset(s) == multiset{s[0]} + multiset(s[1..])
    ensures forall i :: 1 <= i < |s| ==> s[i] == s[1..][i - 1]
  {
    assert s == [s[0]] + s[1..];
  }

  /** Selecting with a test every element passes gives back the input. */
  lemma {:induction false} FilterKeepsAll<T>(s: seq<T>, keep: T -> bool)
    requires forall i :: 0 <= i < |s| ==> keep(s[i])
    ensures Filter(s, keep) == s
  {
    if s != [] {
      FilterKeepsAll(s[1..], keep);
    }
  }

  /** Selecting twice with the same test changes nothing more. */
  lemma {:induction false} FilterIdempotent<T>(s: seq<T>, keep: T -> bool)
    ensures Filter(Filter(s, keep), keep) == Filter(s, keep)
  {
    FilterKeepsAll(Filter(s, keep), keep);
  }

  /** Two sequences related position by position, filtered by tests that
      agree on related elements, give results related position by
      position. */
  lemma {:induction false} FilterPointwise<T, U>(s: seq<T>, s': seq<U>, keep: T -> bool, keep': U -> bool, rel: (T, U) -> bool)
    requires |s| == |s'|
    requires forall i :: 0 <= i < |s| ==> rel(s[i], s'[i]) && keep(s[i]) == keep'(s'[i])
    ensures |Filter(s, keep)| == |Filter(s', keep')|
    ensures forall i :: 0 <= i < |Filter(s, keep)| ==> rel(Filter(s, keep)[i], Filter(s', keep')[i])
  {
    if s != [] {
      var t, t' := s[1..], s'[1..];
      HeadTail(s);
      HeadTail(s');
      FilterPointwise(t, t', keep, keep', rel);
      var r, r' := Filter(t, keep), Filter(t', keep');
      var f, f' := Filter(s, keep), Filter(s', keep');
      if keep(s[0]) {
        assert f == [s[0]] + r && f' == [s'[0]] + r';
        forall i | 0 <= i < |f|
          ensures rel(f[i], f'[i])
        {
          if i > 0 {
            assert f[i] == r[i - 1] && f'[i] == r'[i - 1];
          }
        }
      } else {
        assert f == r && f' == r';
      }
    }
  }

  /** Two elements of the result come from two positions `a < b` of
      the input, in the same order. */
  lemma {:induction false} FilterKeepsOrder<T>(s: seq<T>, keep: T -> bool, i: int, j: int) returns (a: int, b: int)
    requires 0 <= i < j < |Filter(s, keep)|
    ensures 0 <= a < b < |s| && Filter(s, keep)[i] == s[a] && Filter(s, keep)[j] == s[b]
  {
    if keep(s[0]) && i == 0 {
      a, b := FilterKeepsOrderHead(s, keep, j);
    } else if keep(s[0]) {
      FilterPairKept(s, keep, i, j);
      var c, d := FilterKeepsOrder(s[1..], keep, i - 1, j - 1);
      a, b := TailPositions(s, c, d);
    } else {
      FilterPairSkipped(s, keep, i, j);
      var c, d := FilterKeepsOrder(s[1..], keep, i, j);
      a, b := TailPositions(s, c, d);
    }
  }

  /** Past a kept head, positions `i < j` of the result are positions
      `i - 1 < j - 1` of the tail's result. */
  lemma FilterPairKept<T>(s: seq<T>, keep: T -> bool, i: int, j: int)
    requires s != [] && keep(s[0]) && 0 < i < j < |Filter(s, keep)|
    ensures 0 <= i - 1 < j - 1 < |Filter(s[1..], keep)|
      && Filter(s, keep)[i] == Filter(s[1..], keep)[i - 1]
      && Filter(s, keep)[j] == Filter(s[1..], keep)[j - 1]
  {
    FilterTailKept(s, keep, i);
    FilterTailKept(s, keep, j);
  }

  /** Past a dropped head, positions of the result are the same positions
      of the tail's result. */
  lemma FilterPairSkipped<T>(s: seq<T>, keep: T -> bool, i: int, j: int)
    requires s != [] && !keep(s[0]) && 0 <= i < j < |Filter(s, keep)|
    ensures j < |Filter(s[1..], keep)|
      && Filter(s, keep)[i] == Filter(s[1..], keep)[i]
      && Filter(s, keep)[j] == Filter(s[1..], keep)[j]
  {
    FilterTailSkipped(s, keep, i);
    FilterTailSkipped(s, keep, j);
  }

  /** Positions of the tail are positions of the whole, one further on. */
  lemma TailPositions<T>(s: seq<T>, c: int, d: int) returns (a: int, b: int)
    requires 0 <= c < d < |s| - 1
    ensures a == c + 1 && b == d + 1 && 0 <= a < b < |s| && s[1..][c] == s[a] && s[1..][d] == s[b]
  {
    a, b := c + 1, d + 1;
  }

  /** Past a kept head, position `i` of the result is position `i - 1` of
      the tail's result. */
  lemma FilterTailKept<T>(s: seq<T>, keep: T -> bool, i: int)
    requires s != [] && keep(s[0]) && 0 < i < |Filter(s, keep)|
    ensures 0 <= i - 1 < |Filter(s[1..], keep)| && Filter(s, keep)[i] == Filter(s[1..], keep)[i - 1]
  {
    FilterCons(s, keep);
  }

  /** Past a dropped head, the result is the tail's result. */
  lemma FilterTailSkipped<T>(s: seq<T>, keep: T -> bool, i: int)
    requires s != [] && !keep(s[0]) && 0 <= i < |Filter(s, keep)|
    ensures 0 <= i < |Filter(s[1..], keep)| && Filter(s, keep)[i] == Filter(s[1..], keep)[i]
  {
    FilterCons(s, keep);
  }

  /** One step of the filter on a non-empty sequence. */
  lemma FilterCons<T>(s: seq<T>, keep: T -> bool)
    requires s != []
    ensures Filter(s, keep) == if keep(s[0]) then [s[0]] + Filter(s[1..], keep) else Filter(s[1..], keep)
  {
  }

  /** Of two elements, the filter keeps exactly the one that passes. */
  lemma FilterPair<T>(a: T, b: T, keep: T -> bool)
    requires keep(a) && !keep(b)
    ensures Filter([a, b], keep) == [a]
  {
    assert [a, b][1..] == [b];
    assert [b][1..] == [];
  }

  lemma FilterKeepsOrderHead<T>(s: seq<T>, keep: T -> bool, j: int) returns (a: int, b: int)
    requires 0 < j < |Filter(s, keep)|
    requires keep(s[0])
    ensures 0 <= a < b < |s| && Filter(s, keep)[0] == s[a] && Filter(s, keep)[j] == s[b]
  {
    var rest := Filter(s[1..], keep);
    assert Filter(s, keep) == [s[0]] + rest;
    var c := FilterSource(s[1..], keep, j - 1);
    assert rest[j - 1] == s[1..][c] == s[c + 1];
    a, b := 0, c + 1;
  }

  /** Every element of the result sits at some position of the input. */
  lemma FilterSource<T>(s: seq<T>, keep: T -> bool, i: int) returns (a: int)
    requires 0 <= i < |Filter(s, keep)|
    ensures 0 <= a < |s| && Filter(s, keep)[i] == s[a]
  {
    var x := Filter(s, keep)[i];
    FilterWithin(s, keep);
    assert x in s;
    a :| 0 <= a < |s| && s[a] == x;
  }
}
