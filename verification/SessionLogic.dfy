/** Requests still open in a thread, derived from its activities (`apps/web/src/session-logic.ts`). */
module SessionLogic {
  import opened Text
  import opened Sorting

  datatype RawOption = RawOption(caption: Option<string>, description: Option<string>)

  /** An entry of `payload.questions`; a field of the wrong type is None. */
  datatype RawQuestion = RawQuestion(id: Option<string>, header: Option<string>, question: Option<string>,
                                     options: Option<seq<RawOption>>, multiSelect: bool)

  /** The fields of a payload that the derivations read; a field of the wrong type is None. */
  datatype Payload = Payload(requestId: Option<string>, requestKind: Option<string>, requestType: Option<string>,
                             detail: Option<string>, questions: Option<seq<RawQuestion>>)

  datatype Activity = Activity(id: string, createdAt: string, sequence: Option<int>, kind: string,
                               payload: Option<Payload>)

  // Order

  predicate EndsWith(s: string, suffix: string) {
    |suffix| <= |s| && s[|s| - |suffix|..] == suffix
  }

  function LifecycleRank(kind: string): int {
    if EndsWith(kind, ".started") || kind == "tool.started" then 0
    else if EndsWith(kind, ".progress") || EndsWith(kind, ".updated") then 1
    else if EndsWith(kind, ".completed") || EndsWith(kind, ".resolved") then 2
    else 1
  }

  /** `compareActivitiesByOrder`; `collate` is `localeCompare`. */
  function CompareActivities(collate: (string, string) -> int, left: Activity, right: Activity): int {
    if left.sequence.Some? && right.sequence.Some? && left.sequence != right.sequence then
      left.sequence.value - right.sequence.value
    else if left.sequence.Some? && right.sequence.None? then 1
    else if left.sequence.None? && right.sequence.Some? then -1
    else if collate(left.createdAt, right.createdAt) != 0 then collate(left.createdAt, right.createdAt)
    else if LifecycleRank(left.kind) != LifecycleRank(right.kind) then LifecycleRank(left.kind) - LifecycleRank(right.kind)
    else collate(left.id, right.id)
  }

  function ByOrder(collate: (string, string) -> int): (Activity, Activity) -> int {
    (a, b) => CompareActivities(collate, a, b)
  }

  lemma CompareSymmetric(collate: (string, string) -> int, a: Activity, b: Activity)
    requires TotalPreorder(collate)
    ensures CompareActivities(collate, a, b) < 0 <==> CompareActivities(collate, b, a) > 0
  {
    hide LifecycleRank;
    assert collate(a.createdAt, b.createdAt) < 0 <==> collate(b.createdAt, a.createdAt) > 0;
    assert collate(b.createdAt, a.createdAt) < 0 <==> collate(a.createdAt, b.createdAt) > 0;
    assert collate(a.id, b.id) < 0 <==> collate(b.id, a.id) > 0;
    assert collate(b.id, a.id) < 0 <==> collate(a.id, b.id) > 0;
  }

  /** What a chain of two comparisons of texts says about the third. */
  lemma CollateChain(collate: (string, string) -> int, a: string, b: string, c: string)
    requires TotalPreorder(collate)
    requires collate(a, b) <= 0 && collate(b, c) <= 0
    ensures collate(a, c) <= 0
    ensures collate(a, c) == 0 <==> collate(a, b) == 0 && collate(b, c) == 0
  {
    assert collate(c, b) >= 0 && collate(b, a) >= 0;
    if collate(a, c) == 0 {
      assert collate(c, a) <= 0;
      assert collate(c, b) <= 0 && collate(b, a) <= 0;
    }
    if collate(a, b) == 0 && collate(b, c) == 0 {
      assert collate(c, b) <= 0 && collate(b, a) <= 0;
      assert collate(c, a) <= 0;
    }
  }

  lemma CompareTransitive(collate: (string, string) -> int, a: Activity, b: Activity, c: Activity)
    requires TotalPreorder(collate)
    requires CompareActivities(collate, a, b) <= 0 && CompareActivities(collate, b, c) <= 0
    ensures CompareActivities(collate, a, c) <= 0
  {
    hide LifecycleRank, TotalPreorder;
    if a.sequence == b.sequence == c.sequence {
      CollateChain(collate, a.createdAt, b.createdAt, c.createdAt);
      if collate(a.createdAt, c.createdAt) == 0 && LifecycleRank(a.kind) == LifecycleRank(b.kind) == LifecycleRank(c.kind) {
        CollateChain(collate, a.id, b.id, c.id);
      }
    }
  }

  /** The comparator is a total preorder whatever order texts have, and it ties two activities
      exactly when they agree in sequence, time, rank and id. */
  lemma ComparatorIsOrder(collate: (string, string) -> int)
    requires TotalPreorder(collate)
    ensures TotalPreorder(ByOrder(collate))
    ensures forall a, b :: ByOrder(collate)(a, b) == 0 <==>
      && a.sequence == b.sequence && collate(a.createdAt, b.createdAt) == 0
      && LifecycleRank(a.kind) == LifecycleRank(b.kind) && collate(a.id, b.id) == 0
  {
    hide LifecycleRank;
    var cmp := ByOrder(collate);
    forall a, b ensures cmp(a, b) < 0 <==> cmp(b, a) > 0 { CompareSymmetric(collate, a, b); }
    forall a, b, c | cmp(a, b) <= 0 && cmp(b, c) <= 0 ensures cmp(a, c) <= 0 { CompareTransitive(collate, a, b, c); }
  }

  // A request is opened, closed or left alone by an activity

  datatype Signal<T> = Opens(id: string, item: T) | Closes(id: string) | Silent

  predicate Concerns<T>(signal: Signal<T>, id: string) {
    !signal.Silent? && signal.id == id
  }

  /** A `Map` in insertion order. */
  datatype Entry<T> = Entry(id: string, item: T)

  function SetEntry<T>(m: seq<Entry<T>>, e: Entry<T>): seq<Entry<T>> {
    if m == [] then [e]
    else if m[0].id == e.id then [e] + m[1..]
    else [m[0]] + SetEntry(m[1..], e)
  }

  function DeleteEntry<T>(m: seq<Entry<T>>, id: string): seq<Entry<T>> {
    if m == [] then []
    else if m[0].id == id then m[1..]
    else [m[0]] + DeleteEntry(m[1..], id)
  }

  ghost predicate DistinctIds<T>(m: seq<Entry<T>>) {
    forall i, j | 0 <= i < j < |m| :: m[i].id != m[j].id
  }

  function Step<T>(m: seq<Entry<T>>, signal: Signal<T>): seq<Entry<T>> {
    match signal
    case Opens(id, item) => SetEntry(m, Entry(id, item))
    case Closes(id) => DeleteEntry(m, id)
    case Silent => m
  }

  /** The requests open after `ordered`. */
  function Open<T>(classify: Activity -> Signal<T>, ordered: seq<Activity>): seq<Entry<T>> {
    if ordered == [] then []
    else Step(Open(classify, ordered[..|ordered| - 1]), classify(ordered[|ordered| - 1]))
  }

  function Values<T>(m: seq<Entry<T>>): seq<T> {
    seq(|m|, k requires 0 <= k < |m| => m[k].item)
  }

  /** `e` was opened by some activity and no later one opened or closed its request again. */
  ghost predicate OpenedLast<T>(classify: Activity -> Signal<T>, ordered: seq<Activity>, e: Entry<T>) {
    exists k :: 0 <= k < |ordered| && OpenedAt(classify, ordered, e, k)
  }

  ghost predicate OpenedAt<T>(classify: Activity -> Signal<T>, ordered: seq<Activity>, e: Entry<T>, k: int)
    requires 0 <= k < |ordered|
  {
    && classify(ordered[k]) == Opens(e.id, e.item)
    && forall j | k < j < |ordered| :: !Concerns(classify(ordered[j]), e.id)
  }

  lemma {:induction false} SetMember<T>(m: seq<Entry<T>>, e: Entry<T>, x: Entry<T>)
    requires DistinctIds(m)
    ensures x in SetEntry(m, e) <==> x == e || (x in m && x.id != e.id)
  {
    if m != [] && m[0].id != e.id {
      SetMember(m[1..], e, x);
    }
  }

  lemma {:induction false} DeleteMember<T>(m: seq<Entry<T>>, id: string, x: Entry<T>)
    requires DistinctIds(m)
    ensures x in DeleteEntry(m, id) <==> x in m && x.id != id
  {
    if m != [] && m[0].id != id {
      DeleteMember(m[1..], id, x);
    }
  }

  /** An entry that is set again keeps its place and a new one comes last: the order of a `Map`. */
  lemma {:induction false} SetKeepsItsPlace<T>(a: seq<Entry<T>>, x: Entry<T>, b: seq<Entry<T>>, e: Entry<T>)
    requires e.id == x.id && forall k | 0 <= k < |a| :: a[k].id != x.id
    ensures SetEntry(a + [x] + b, e) == a + [e] + b && SetEntry(a, e) == a + [e]
    decreases |a|
  {
    var all := a + [x] + b;
    if a == [] {
      assert all[0] == x && all[1..] == b;
    } else {
      assert all[0] == a[0] && all[1..] == a[1..] + [x] + b;
      SetKeepsItsPlace(a[1..], x, b, e);
      assert a == [a[0]] + a[1..];
    }
  }

  /** An entry that is deleted leaves the others in their order. */
  lemma {:induction false} DeleteClosesUp<T>(a: seq<Entry<T>>, x: Entry<T>, b: seq<Entry<T>>)
    requires forall k | 0 <= k < |a| :: a[k].id != x.id
    ensures DeleteEntry(a + [x] + b, x.id) == a + b && DeleteEntry(a, x.id) == a
    decreases |a|
  {
    var all := a + [x] + b;
    if a == [] {
      assert all[0] == x && all[1..] == b;
    } else {
      assert all[0] == a[0] && all[1..] == a[1..] + [x] + b;
      DeleteClosesUp(a[1..], x, b);
      assert a == [a[0]] + a[1..];
    }
  }

  lemma {:induction false} SetKeepsDistinct<T>(m: seq<Entry<T>>, e: Entry<T>)
    requires DistinctIds(m)
    ensures DistinctIds(SetEntry(m, e))
  {
    if m != [] && m[0].id != e.id {
      SetKeepsDistinct(m[1..], e);
      var r := SetEntry(m[1..], e);
      forall k | 0 <= k < |r| ensures r[k].id != m[0].id { SetMember(m[1..], e, r[k]); }
    }
  }

  lemma {:induction false} DeleteKeepsDistinct<T>(m: seq<Entry<T>>, id: string)
    requires DistinctIds(m)
    ensures DistinctIds(DeleteEntry(m, id))
  {
    if m != [] && m[0].id != id {
      DeleteKeepsDistinct(m[1..], id);
      var r := DeleteEntry(m[1..], id);
      forall k | 0 <= k < |r| ensures r[k].id != m[0].id { DeleteMember(m[1..], id, r[k]); }
    }
  }

  lemma OpenedLastStep<T>(classify: Activity -> Signal<T>, ordered: seq<Activity>, e: Entry<T>)
    requires ordered != []
    ensures var n := |ordered| - 1;
            OpenedLast(classify, ordered, e) <==>
              classify(ordered[n]) == Opens(e.id, e.item)
              || (OpenedLast(classify, ordered[..n], e) && !Concerns(classify(ordered[n]), e.id))
  {
    hide Concerns;
    var n := |ordered| - 1;
    var front := ordered[..n];
    if k :| 0 <= k < n && OpenedAt(classify, front, e, k) && !Concerns(classify(ordered[n]), e.id) {
      forall j | k < j < |ordered| ensures !Concerns(classify(ordered[j]), e.id) {
        if j < n { assert front[j] == ordered[j]; }
      }
      assert front[k] == ordered[k];
      assert OpenedAt(classify, ordered, e, k);
    }
    if k :| 0 <= k < n && OpenedAt(classify, ordered, e, k) {
      assert OpenedAt(classify, front, e, k);
    }
    if classify(ordered[n]) == Opens(e.id, e.item) {
      assert OpenedAt(classify, ordered, e, n);
    }
  }

  /** The fold over the ordered activities leaves exactly the requests whose last opening or closing
      activity is an opening, each with the data of that opening, and no request twice. */
  lemma {:induction false} OpenIsOpenedLast<T>(classify: Activity -> Signal<T>, ordered: seq<Activity>, e: Entry<T>)
    ensures DistinctIds(Open(classify, ordered))
    ensures e in Open(classify, ordered) <==> OpenedLast(classify, ordered, e)
  {
    if ordered != [] {
      hide DeleteEntry, SetEntry;
      var front, last := ordered[..|ordered| - 1], classify(ordered[|ordered| - 1]);
      OpenIsOpenedLast(classify, front, e);
      OpenedLastStep(classify, ordered, e);
      match last
      case Opens(id, item) =>
        SetMember(Open(classify, front), Entry(id, item), e);
        SetKeepsDistinct(Open(classify, front), Entry(id, item));
      case Closes(id) =>
        DeleteMember(Open(classify, front), id, e);
        DeleteKeepsDistinct(Open(classify, front), id);
      case Silent =>
    }
  }

  /** Requests that are open, oldest first. */
  function Pending<T>(collate: (string, string) -> int, classify: Activity -> Signal<T>, older: (T, T) -> int,
                      activities: seq<Activity>): seq<T>
  {
    Sort(older, Values(Open(classify, Sort(ByOrder(collate), activities))))
  }

  /** The activities can come in any order, as long as no two different ones share an id. */
  lemma PendingIgnoresOrder<T>(collate: (string, string) -> int, classify: Activity -> Signal<T>, older: (T, T) -> int,
                               activities: seq<Activity>, others: seq<Activity>)
    requires TotalPreorder(collate) && multiset(activities) == multiset(others)
    requires forall a, b | a in activities && b in activities && a != b :: collate(a.id, b.id) != 0
    ensures Pending(collate, classify, older, activities) == Pending(collate, classify, older, others)
  {
    hide ByOrder, LifecycleRank, Sort, TotalPreorder;
    ComparatorIsOrder(collate);
    var cmp := ByOrder(collate);
    assert Separates(cmp, activities) by {
      forall a, b | a in activities && b in activities && a != b ensures cmp(a, b) != 0 {}
    }
    SortForgetsOrder(cmp, activities, others);
  }
}
