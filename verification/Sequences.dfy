/** A few facts about sequences that the library functions of the program rest on. */
module Sequences {

  /** `s.flatMap(f)` */
  function FlatMap<T, U>(f: T -> seq<U>, s: seq<T>): seq<U> {
    if s == [] then [] else f(s[0]) + FlatMap(f, s[1..])
  }

  lemma Associative<T>(a: seq<T>, b: seq<T>, c: seq<T>)
    ensures (a + b) + c == a + (b + c)
  {}

  lemma Regroup<T>(a: seq<T>, b: seq<T>, c: seq<T>, d: seq<T>)
    ensures a + (b + c + d) == a + b + c + d
  {}

  lemma {:induction false} FlatMapAppend<T, U>(f: T -> seq<U>, a: seq<T>, b: seq<T>)
    ensures FlatMap(f, a + b) == FlatMap(f, a) + FlatMap(f, b)
  {
    if a == [] {
      assert a + b == b;
    } else {
      assert (a + b)[1..] == a[1..] + b;
      FlatMapAppend(f, a[1..], b);
      Associative(f(a[0]), FlatMap(f, a[1..]), FlatMap(f, b));
    }
  }

  lemma FlatMapOne<T, U>(f: T -> seq<U>, x: T)
    ensures FlatMap(f, [x]) == f(x)
  {
    assert [x][1..] == [];
  }

  /** Membership, element by element. */
  lemma {:induction false} FlatMapMember<T, U>(f: T -> seq<U>, s: seq<T>, y: U)
    ensures y in FlatMap(f, s) <==> exists i :: 0 <= i < |s| && y in f(s[i])
  {
    if s != [] {
      FlatMapMember(f, s[1..], y);
      if y in FlatMap(f, s[1..]) {
        var i :| 0 <= i < |s[1..]| && y in f(s[1..][i]);
        assert y in f(s[i + 1]);
      }
      if i :| 0 < i < |s| && y in f(s[i]) {
        assert s[1..][i - 1] == s[i];
      }
    }
  }

  ghost predicate NoDuplicates<T>(s: seq<T>) {
    forall i, j | 0 <= i < j < |s| :: s[i] != s[j]
  }

  /** `[...new Set(s)]`: every value once, in order of first appearance. */
  function Dedup<T(==)>(s: seq<T>): seq<T> {
    if s == [] then []
    else
      var rest := Dedup(s[..|s| - 1]);
      var last := s[|s| - 1];
      if last in s[..|s| - 1] then rest else rest + [last]
  }

  lemma {:induction false} DedupMembers<T>(s: seq<T>)
    ensures forall x :: x in Dedup(s) <==> x in s
  {
    if s != [] {
      var n := |s| - 1;
      DedupMembers(s[..n]);
      assert s == s[..n] + [s[n]];
    }
  }

  lemma DedupMember<T>(s: seq<T>, x: T)
    ensures x in Dedup(s) <==> x in s
  {
    DedupMembers(s);
  }

  lemma {:induction false} DedupIsDistinct<T>(s: seq<T>)
    ensures NoDuplicates(Dedup(s))
  {
    if s != [] {
      var n := |s| - 1;
      DedupIsDistinct(s[..n]);
      DedupMembers(s[..n]);
    }
  }

  /** De-duplicating changes nothing exactly when there is nothing to drop. */
  lemma {:induction false} DedupFixes<T>(s: seq<T>)
    ensures Dedup(s) == s <==> NoDuplicates(s)
    ensures |Dedup(s)| <= |s|
  {
    DedupIsDistinct(s);
    if s != [] {
      var n := |s| - 1;
      DedupFixes(s[..n]);
      assert s == s[..n] + [s[n]];
      if s[n] in s[..n] {
        assert |Dedup(s)| <= n;
      } else if NoDuplicates(s) {
        assert NoDuplicates(s[..n]);
      }
    }
  }

  lemma {:induction false} DedupAbsorbsLeft<T>(a: seq<T>, b: seq<T>)
    ensures Dedup(Dedup(a) + b) == Dedup(a + b)
    decreases |b|
  {
    if b == [] {
      assert Dedup(a) + b == Dedup(a) && a + b == a;
      DedupIsDistinct(a);
      DedupFixes(Dedup(a));
    } else {
      var n := |b| - 1;
      DedupAbsorbsLeft(a, b[..n]);
      assert (Dedup(a) + b)[..|Dedup(a) + b| - 1] == Dedup(a) + b[..n];
      assert (a + b)[..|a + b| - 1] == a + b[..n];
      DedupMembers(a);
    }
  }

  lemma {:induction false} DedupAbsorbsRight<T>(a: seq<T>, b: seq<T>)
    ensures Dedup(a + Dedup(b)) == Dedup(a + b)
    decreases |b|
  {
    if b != [] {
      var n := |b| - 1;
      var front, last := b[..n], b[n];
      DedupAbsorbsRight(a, front);
      assert (a + b)[..|a + b| - 1] == a + front;
      DedupMembers(front);
      if last !in front {
        assert (a + (Dedup(front) + [last]))[..|a| + |Dedup(front)|] == a + Dedup(front);
      }
    }
  }

  /** Position of the first occurrence of `x`; the length when there is none. */
  function FirstIndex<T(==)>(s: seq<T>, x: T): nat {
    if s == [] || s[0] == x then 0 else 1 + FirstIndex(s[1..], x)
  }

  lemma {:induction false} FirstIndexIs<T>(s: seq<T>, x: T)
    ensures if x in s then FirstIndex(s, x) < |s| && s[FirstIndex(s, x)] == x else FirstIndex(s, x) == |s|
    ensures forall i | 0 <= i < FirstIndex(s, x) :: s[i] != x
  {
    if s != [] && s[0] != x { FirstIndexIs(s[1..], x); }
  }

  lemma {:induction false} FirstIndexFront<T>(a: seq<T>, b: seq<T>, x: T)
    requires x in a
    ensures FirstIndex(a + b, x) == FirstIndex(a, x)
  {
    if a[0] != x {
      assert (a + b)[1..] == a[1..] + b;
      FirstIndexFront(a[1..], b, x);
    }
  }

  /** The values of `Dedup(s)` first appear in `s` in the same order. */
  lemma {:induction false} DedupKeepsOrder<T>(s: seq<T>)
    ensures forall i, j | 0 <= i < j < |Dedup(s)| :: FirstIndex(s, Dedup(s)[i]) < FirstIndex(s, Dedup(s)[j])
  {
    hide FirstIndex;
    if s != [] {
      var n := |s| - 1;
      var front, last := s[..n], s[n];
      assert s == front + [last];
      DedupKeepsOrder(front);
      DedupMembers(front);
      var d := Dedup(front);
      forall i | 0 <= i < |d| ensures FirstIndex(s, d[i]) == FirstIndex(front, d[i]) < n {
        DedupMember(front, d[i]);
        FirstIndexFront(front, [last], d[i]);
        FirstIndexIs(front, d[i]);
      }
      if last !in front {
        FirstIndexIs(s, last);
      }
    }
  }

  /** `s.filter(x => x !== y)` */
  function Without<T(==)>(s: seq<T>, y: T): seq<T> {
    if s == [] then [] else if s[0] == y then Without(s[1..], y) else [s[0]] + Without(s[1..], y)
  }

  lemma {:induction false} WithoutMembers<T>(s: seq<T>, y: T)
    ensures forall x :: x in Without(s, y) <==> x in s && x != y
    ensures |Without(s, y)| <= |s| && (y in s ==> |Without(s, y)| < |s|)
  {
    if s != [] { WithoutMembers(s[1..], y); }
  }

  lemma WithoutMember<T>(s: seq<T>, y: T, x: T)
    ensures x in Without(s, y) <==> x in s && x != y
  {
    WithoutMembers(s, y);
  }

  lemma {:induction false} WithoutAbsent<T>(s: seq<T>, y: T)
    requires y !in s
    ensures Without(s, y) == s
  {
    if s != [] {
      WithoutAbsent(s[1..], y);
      assert s == [s[0]] + s[1..];
    }
  }

  lemma {:induction false} WithoutIsDistinct<T>(s: seq<T>, y: T)
    requires NoDuplicates(s)
    ensures NoDuplicates(Without(s, y))
  {
    if s != [] {
      var rest := s[1..];
      assert forall x | x in rest :: x != s[0];
      assert NoDuplicates(rest);
      WithoutIsDistinct(rest, y);
      var r := Without(rest, y);
      forall i | 0 <= i < |r| ensures r[i] != s[0] {
        WithoutMember(rest, y, r[i]);
      }
    }
  }

  lemma {:induction false} WithoutAppend<T>(a: seq<T>, b: seq<T>, y: T)
    ensures Without(a + b, y) == Without(a, y) + Without(b, y)
  {
    if a == [] {
      assert a + b == b;
    } else {
      assert (a + b)[1..] == a[1..] + b;
      WithoutAppend(a[1..], b, y);
    }
  }

  lemma WithoutOnly<T>(y: T)
    ensures Without([y], y) == []
  {
    assert [y][1..] == [];
  }

  /** Taking out the one occurrence of `y`. */
  lemma WithoutSpliced<T>(a: seq<T>, b: seq<T>, y: T)
    requires y !in a && y !in b
    ensures Without(a + [y] + b, y) == a + b
  {
    hide Without;
    WithoutAppend(a + [y], b, y);
    WithoutAppend(a, [y], y);
    WithoutAbsent(a, y);
    WithoutAbsent(b, y);
    WithoutOnly(y);
  }

  /** `s.filter(x => !ids.has(key(x)))` */
  function Except<T>(key: T -> string, s: seq<T>, ids: set<string>): seq<T> {
    if s == [] then []
    else
      var rest := Except(key, s[..|s| - 1], ids);
      if key(s[|s| - 1]) in ids then rest else rest + [s[|s| - 1]]
  }

  lemma {:induction false} ExceptMember<T>(key: T -> string, s: seq<T>, ids: set<string>, x: T)
    ensures x in Except(key, s, ids) <==> x in s && key(x) !in ids
  {
    if s != [] {
      ExceptMember(key, s[..|s| - 1], ids, x);
      assert s == s[..|s| - 1] + [s[|s| - 1]];
    }
  }

  lemma {:induction false} ExceptAbsent<T>(key: T -> string, s: seq<T>, ids: set<string>)
    requires forall i | 0 <= i < |s| :: key(s[i]) !in ids
    ensures Except(key, s, ids) == s
  {
    if s != [] {
      ExceptAbsent(key, s[..|s| - 1], ids);
      assert s == s[..|s| - 1] + [s[|s| - 1]];
    }
  }

  lemma {:induction false} ExceptAppend<T>(key: T -> string, a: seq<T>, b: seq<T>, ids: set<string>)
    ensures Except(key, a + b, ids) == Except(key, a, ids) + Except(key, b, ids)
    decreases |b|
  {
    if b == [] {
      assert a + b == a;
    } else {
      var front := b[..|b| - 1];
      ExceptAppend(key, a, front, ids);
      assert (a + b)[..|a + b| - 1] == a + front;
      if key(b[|b| - 1]) !in ids {
        Associative(Except(key, a, ids), Except(key, front, ids), [b[|b| - 1]]);
      }
    }
  }

  lemma ExceptOnly<T>(key: T -> string, x: T)
    ensures Except(key, [x], {key(x)}) == []
  {
    assert [x][..0] == [];
  }
}
