/**
 Sorting of strings by their characters' code points.
 */
module Sorting {

  predicate LessEq(a: string, b: string) {
    if a == "" then true
    else if b == "" then false
    else if a[0] != b[0] then a[0] < b[0]
    else LessEq(a[1..], b[1..])
  }

  lemma {:induction false} LessEqReflexive(a: string)
    ensures LessEq(a, a)
  {
    if a != "" { LessEqReflexive(a[1..]); }
  }

  lemma {:induction false} LessEqTotal(a: string, b: string)
    ensures LessEq(a, b) || LessEq(b, a)
  {
    if a != "" && b != "" && a[0] == b[0] { LessEqTotal(a[1..], b[1..]); }
  }

  lemma {:induction false} LessEqAntisymmetric(a: string, b: string)
    requires LessEq(a, b) && LessEq(b, a)
    ensures a == b
  {
    if a != "" && b != "" {
      LessEqAntisymmetric(a[1..], b[1..]);
      assert a == [a[0]] + a[1..] && b == [b[0]] + b[1..];
    }
  }

  lemma {:induction false} LessEqTransitive(a: string, b: string, c: string)
    requires LessEq(a, b) && LessEq(b, c)
    ensures LessEq(a, c)
  {
    if a != "" && b != "" && c != "" && a[0] == b[0] == c[0] { LessEqTransitive(a[1..], b[1..], c[1..]); }
  }

  predicate Sorted(s: seq<string>) {
    forall i, j | 0 <= i < j < |s| :: LessEq(s[i], s[j])
  }

  function InsertSorted(x: string, s: seq<string>): seq<string> {
    if s == [] || LessEq(x, s[0]) then [x] + s else [s[0]] + InsertSorted(x, s[1..])
  }

  function Sort(s: seq<string>): seq<string> {
    if s == [] then [] else InsertSorted(s[0], Sort(s[1..]))
  }

  lemma {:induction false} InsertSortedKeeps(x: string, s: seq<string>)
    ensures multiset(InsertSorted(x, s)) == multiset(s) + multiset{x}
  {
    if s != [] && !LessEq(x, s[0]) {
      InsertSortedKeeps(x, s[1..]);
      assert s == [s[0]] + s[1..];
    }
  }

  lemma {:induction false} InsertSortedSorts(x: string, s: seq<string>)
    requires Sorted(s)
    ensures Sorted(InsertSorted(x, s))
  {
    if s == [] {
    } else if LessEq(x, s[0]) {
      forall j | 0 <= j < |s| ensures LessEq(x, s[j]) {
        if j > 0 { LessEqTransitive(x, s[0], s[j]); }
      }
    } else {
      var rest := InsertSorted(x, s[1..]);
      InsertSortedSorts(x, s[1..]);
      InsertSortedKeeps(x, s[1..]);
      LessEqTotal(x, s[0]);
      forall j | 0 <= j < |rest| ensures LessEq(s[0], rest[j]) {
        assert rest[j] in multiset(rest);
      }
    }
  }

  /** Sorting yields a sorted rearrangement. */
  lemma {:induction false} SortSorts(s: seq<string>)
    ensures Sorted(Sort(s)) && multiset(Sort(s)) == multiset(s)
  {
    if s != [] {
      SortSorts(s[1..]);
      InsertSortedSorts(s[0], Sort(s[1..]));
      InsertSortedKeeps(s[0], Sort(s[1..]));
      FirstAndRest(s);
    }
  }

  lemma FirstAndRest(s: seq<string>)
    requires s != []
    ensures multiset(s) == multiset{s[0]} + multiset(s[1..])
  {
    assert s == [s[0]] + s[1..];
  }

  /** There is only one sorted arrangement of given strings. */
  lemma {:induction false} SortedIsUnique(a: seq<string>, b: seq<string>)
    requires Sorted(a) && Sorted(b) && multiset(a) == multiset(b)
    ensures a == b
  {
    assert |a| == |multiset(a)| && |b| == |multiset(b)|;
    if a != [] {
      assert a[0] in multiset(a);
      FirstIsLeast(a, b);
      FirstIsLeast(b, a);
      LessEqAntisymmetric(a[0], b[0]);
      RestIsMinusFirst(a);
      RestIsMinusFirst(b);
      SortedIsUnique(a[1..], b[1..]);
    }
  }

  lemma RestIsMinusFirst(a: seq<string>)
    requires a != []
    ensures multiset(a[1..]) == multiset(a) - multiset{a[0]} && a == [a[0]] + a[1..]
  {
    assert a == [a[0]] + a[1..];
  }

  lemma FirstIsLeast(a: seq<string>, b: seq<string>)
    requires Sorted(a) && a != [] && multiset(a) == multiset(b)
    ensures b != [] && LessEq(a[0], b[0])
  {
    assert a[0] in multiset(b);
    assert b[0] in multiset(a);
    var i :| 0 <= i < |a| && a[i] == b[0];
    if i == 0 { LessEqReflexive(a[0]); }
  }

  /** Sorted, each string once. */
  function SortUnique(s: seq<string>): seq<string> {
    if s == [] then []
    else
      var rest := SortUnique(s[1..]);
      if s[0] in rest then rest else InsertSorted(s[0], rest)
  }

  predicate Distinct(s: seq<string>) {
    forall i, j | 0 <= i < j < |s| :: s[i] != s[j]
  }

  lemma InsertSortedMembers(x: string, s: seq<string>, y: string)
    ensures y in InsertSorted(x, s) <==> y == x || y in s
  {
    InsertSortedKeeps(x, s);
    assert y in multiset(InsertSorted(x, s)) <==> y in InsertSorted(x, s);
    assert y in multiset(s) <==> y in s;
  }

  lemma {:induction false} InsertSortedDistinct(x: string, s: seq<string>)
    requires Distinct(s) && x !in s
    ensures Distinct(InsertSorted(x, s))
  {
    if s != [] && !LessEq(x, s[0]) {
      var rest := InsertSorted(x, s[1..]);
      InsertSortedDistinct(x, s[1..]);
      forall j | 0 <= j < |rest| ensures rest[j] != s[0] {
        InsertSortedMembers(x, s[1..], rest[j]);
      }
    }
  }

  lemma {:induction false} SortUniqueSorts(s: seq<string>)
    ensures Sorted(SortUnique(s)) && Distinct(SortUnique(s))
    ensures forall y :: y in SortUnique(s) <==> y in s
  {
    if s != [] {
      var rest := SortUnique(s[1..]);
      SortUniqueSorts(s[1..]);
      assert s == [s[0]] + s[1..];
      if s[0] !in rest {
        InsertSortedSorts(s[0], rest);
        InsertSortedDistinct(s[0], rest);
        forall y ensures y in InsertSorted(s[0], rest) <==> y == s[0] || y in rest {
          InsertSortedMembers(s[0], rest, y);
        }
      }
    }
  }

  lemma SameMembersSameMultiset(a: seq<string>, b: seq<string>)
    requires Distinct(a) && Distinct(b) && forall y :: y in a <==> y in b
    ensures multiset(a) == multiset(b)
  {
    forall y ensures multiset(a)[y] == multiset(b)[y] {
      DistinctCount(a, y);
      DistinctCount(b, y);
    }
  }

  lemma {:induction false} DistinctCount(s: seq<string>, y: string)
    requires Distinct(s)
    ensures multiset(s)[y] == if y in s then 1 else 0
  {
    if s != [] {
      assert s == [s[0]] + s[1..];
      DistinctCount(s[1..], y);
      forall i | 0 <= i < |s[1..]| ensures s[1..][i] != s[0] {
        assert s[1..][i] == s[i + 1];
      }
    }
  }

  lemma SortUniqueAgain(section: seq<string>, added: seq<string>)
    requires Sorted(section) && Distinct(section) && forall y | y in added :: y in section
    ensures SortUnique(section + added) == section
  {
    var again := SortUnique(section + added);
    SortUniqueSorts(section + added);
    SameMembersSameMultiset(again, section);
    SortedIsUnique(again, section);
  }

  /** Dropping duplicates makes no difference exactly when there are none. */
  lemma SortedAlikeExactly(s: seq<string>)
    ensures SortUnique(s) == Sort(s) <==> Distinct(s)
  {
    SortUniqueSorts(s);
    SortSorts(s);
    if Distinct(s) {
      SameMembersSameMultiset(SortUnique(s), s);
      SortedIsUnique(SortUnique(s), Sort(s));
    }
    if SortUnique(s) == Sort(s) {
      forall y ensures multiset(s)[y] <= 1 { DistinctCount(SortUnique(s), y); }
      CountedOnceIsDistinct(s);
    }
  }

  lemma CountedOnceIsDistinct(s: seq<string>)
    requires forall y :: multiset(s)[y] <= 1
    ensures Distinct(s)
  {
    forall i, j | 0 <= i < j < |s| ensures s[i] != s[j] {
      OnceEachSide(s, i, j);
    }
  }

  lemma OnceEachSide(s: seq<string>, i: nat, j: nat)
    requires i < j < |s|
    ensures s[i] == s[j] ==> multiset(s)[s[j]] >= 2
  {
    assert s == s[..j] + s[j..];
    assert multiset(s)[s[j]] == multiset(s[..j])[s[j]] + multiset(s[j..])[s[j]];
    assert s[..j][i] == s[i] && s[j..][0] == s[j];
    assert s[i] in s[..j] && s[j] in s[j..];
  }
}
