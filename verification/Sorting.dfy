/** `toSorted`: the stable sort of the language's library, and what its callers may rely on. */
module Sorting {

  /** `cmp` behaves like a comparison: its sign is antisymmetric and `<=` is transitive. */
  ghost predicate TotalPreorder<T(!new)>(cmp: (T, T) -> int) {
    && (forall a, b :: cmp(a, b) < 0 <==> cmp(b, a) > 0)
    && (forall a, b, c :: cmp(a, b) <= 0 && cmp(b, c) <= 0 ==> cmp(a, c) <= 0)
  }

  ghost predicate SortedBy<T>(cmp: (T, T) -> int, s: seq<T>) {
    forall i, j | 0 <= i < j < |s| :: cmp(s[i], s[j]) <= 0
  }

  /** No two different elements of `s` compare as equal. */
  ghost predicate Separates<T>(cmp: (T, T) -> int, s: seq<T>) {
    forall a, b | a in s && b in s && a != b :: cmp(a, b) != 0
  }

  function Insert<T>(cmp: (T, T) -> int, x: T, s: seq<T>): seq<T> {
    if s == [] then [x]
    else if cmp(x, s[0]) <= 0 then [x] + s
    else [s[0]] + Insert(cmp, x, s[1..])
  }

  /** Equal elements keep their order: each goes in front of the equal ones that followed it. */
  function Sort<T>(cmp: (T, T) -> int, s: seq<T>): seq<T> {
    if s == [] then [] else Insert(cmp, s[0], Sort(cmp, s[1..]))
  }

  lemma {:induction false} InsertPermutes<T>(cmp: (T, T) -> int, x: T, s: seq<T>)
    ensures multiset(Insert(cmp, x, s)) == multiset([x]) + multiset(s)
  {
    if s != [] && cmp(x, s[0]) > 0 {
      InsertPermutes(cmp, x, s[1..]);
      assert s == [s[0]] + s[1..];
    }
  }

  lemma {:induction false} SortPermutes<T>(cmp: (T, T) -> int, s: seq<T>)
    ensures multiset(Sort(cmp, s)) == multiset(s) && |Sort(cmp, s)| == |s|
    ensures forall x :: x in Sort(cmp, s) <==> x in s
  {
    if s != [] {
      SortPermutes(cmp, s[1..]);
      InsertPermutes(cmp, s[0], Sort(cmp, s[1..]));
      assert s == [s[0]] + s[1..];
    }
    assert |multiset(Sort(cmp, s))| == |multiset(s)|;
    forall x ensures x in Sort(cmp, s) <==> x in s {
      assert x in Sort(cmp, s) <==> x in multiset(Sort(cmp, s));
      assert x in s <==> x in multiset(s);
    }
  }

  predicate LeastOf<T>(cmp: (T, T) -> int, x: T, s: seq<T>) {
    forall j | 0 <= j < |s| :: cmp(x, s[j]) <= 0
  }

  lemma SortedCons<T>(cmp: (T, T) -> int, x: T, s: seq<T>)
    requires SortedBy(cmp, s) && LeastOf(cmp, x, s)
    ensures SortedBy(cmp, [x] + s)
  {}

  lemma HeadBelowRest<T>(cmp: (T, T) -> int, s: seq<T>)
    requires s != [] && SortedBy(cmp, s)
    ensures LeastOf(cmp, s[0], s[1..]) && SortedBy(cmp, s[1..])
  {
    forall i, j | 0 <= i < j < |s| - 1 ensures cmp(s[1..][i], s[1..][j]) <= 0 {
      assert s[1..][i] == s[i + 1] && s[1..][j] == s[j + 1];
    }
  }

  lemma {:induction false} InsertKeepsLeast<T>(cmp: (T, T) -> int, y: T, x: T, s: seq<T>)
    requires LeastOf(cmp, y, s) && cmp(y, x) <= 0
    ensures LeastOf(cmp, y, Insert(cmp, x, s))
  {
    if s != [] && cmp(x, s[0]) > 0 {
      InsertKeepsLeast(cmp, y, x, s[1..]);
    }
  }

  lemma {:induction false} InsertSorts<T(!new)>(cmp: (T, T) -> int, x: T, s: seq<T>)
    requires TotalPreorder(cmp) && SortedBy(cmp, s)
    ensures SortedBy(cmp, Insert(cmp, x, s))
  {
    if s == [] {
    } else {
      HeadBelowRest(cmp, s);
      assert s == [s[0]] + s[1..];
      if cmp(x, s[0]) <= 0 {
        assert LeastOf(cmp, x, s) by {
          forall j | 0 <= j < |s| ensures cmp(x, s[j]) <= 0 { assert j > 0 ==> s[1..][j - 1] == s[j]; }
        }
        SortedCons(cmp, x, s);
      } else {
        InsertSorts(cmp, x, s[1..]);
        assert cmp(s[0], x) <= 0;
        InsertKeepsLeast(cmp, s[0], x, s[1..]);
        SortedCons(cmp, s[0], Insert(cmp, x, s[1..]));
      }
    }
  }

  lemma {:induction false} SortSorts<T(!new)>(cmp: (T, T) -> int, s: seq<T>)
    requires TotalPreorder(cmp)
    ensures SortedBy(cmp, Sort(cmp, s))
  {
    if s != [] {
      SortSorts(cmp, s[1..]);
      InsertSorts(cmp, s[0], Sort(cmp, s[1..]));
    }
  }

  lemma HeadIsLeast<T(!new)>(cmp: (T, T) -> int, s: seq<T>, x: T)
    requires TotalPreorder(cmp) && SortedBy(cmp, s) && x in s
    ensures cmp(s[0], x) <= 0
  {
    assert cmp(s[0], s[0]) == 0;
  }

  lemma TailMultiset<T>(s: seq<T>, t: seq<T>)
    requires s != [] && t != [] && s[0] == t[0] && multiset(s) == multiset(t)
    ensures multiset(s[1..]) == multiset(t[1..])
  {
    assert s == [s[0]] + s[1..] && t == [t[0]] + t[1..];
    assert multiset(s[1..]) == multiset(s) - multiset([s[0]]);
    assert multiset(t[1..]) == multiset(t) - multiset([t[0]]);
  }

  lemma SameHead<T(!new)>(cmp: (T, T) -> int, s: seq<T>, t: seq<T>)
    requires TotalPreorder(cmp) && s != [] && t != []
    requires SortedBy(cmp, s) && SortedBy(cmp, t) && Separates(cmp, s)
    requires t[0] in s && s[0] in t
    ensures s[0] == t[0]
  {
    HeadIsLeast(cmp, t, s[0]);
    HeadIsLeast(cmp, s, t[0]);
  }

  lemma TailSeparates<T>(cmp: (T, T) -> int, s: seq<T>)
    requires s != [] && Separates(cmp, s)
    ensures Separates(cmp, s[1..])
  {
    assert forall a :: a in s[1..] ==> a in s;
  }

  /** A sorted arrangement of elements that never compare as equal is unique. */
  lemma {:induction false} SortedUnique<T(!new)>(cmp: (T, T) -> int, s: seq<T>, t: seq<T>)
    requires TotalPreorder(cmp)
    requires SortedBy(cmp, s) && SortedBy(cmp, t) && Separates(cmp, s)
    requires multiset(s) == multiset(t)
    ensures s == t
    decreases |s|
  {
    hide *;
    assert |multiset(s)| == |multiset(t)|;
    if s != [] {
      assert s[0] in multiset(t) && t[0] in multiset(s);
      SameHead(cmp, s, t);
      TailMultiset(s, t);
      HeadBelowRest(cmp, s);
      HeadBelowRest(cmp, t);
      TailSeparates(cmp, s);
      SortedUnique(cmp, s[1..], t[1..]);
      assert s == [s[0]] + s[1..] && t == [t[0]] + t[1..];
    }
  }

  /** Sorting forgets the order of its input when no two different elements compare as equal. */
  lemma SortForgetsOrder<T(!new)>(cmp: (T, T) -> int, s: seq<T>, t: seq<T>)
    requires TotalPreorder(cmp) && Separates(cmp, s)
    requires multiset(s) == multiset(t)
    ensures Sort(cmp, s) == Sort(cmp, t)
  {
    SortPermutes(cmp, s);
    SortPermutes(cmp, t);
    SortSorts(cmp, s);
    SortSorts(cmp, t);
    SortedUnique(cmp, Sort(cmp, s), Sort(cmp, t));
  }

  /** A list already in order is left alone. */
  lemma {:induction false} SortFixesSorted<T>(cmp: (T, T) -> int, s: seq<T>)
    requires SortedBy(cmp, s)
    ensures Sort(cmp, s) == s
  {
    if s != [] {
      SortFixesSorted(cmp, s[1..]);
      assert s == [s[0]] + s[1..];
    }
  }
}
