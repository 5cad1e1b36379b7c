/** Taking in items one by one, each only if no item kept so far shares its id or its key: the loops
    that guard the images and the terminal contexts of a draft (`apps/web/src/composerDraftStore.ts`). */
module Deduplication {
  import opened Sequences

  /** What tells two items apart. */
  datatype Identity<!T> = Identity(id: T -> string, key: T -> string)

  predicate Same<T>(who: Identity<T>, x: T, y: T) {
    who.id(x) == who.id(y) || who.key(x) == who.key(y)
  }

  predicate Clashes<T>(who: Identity<T>, x: T, kept: seq<T>) {
    exists i :: 0 <= i < |kept| && Same(who, kept[i], x)
  }

  /** No two items share an id or a key. */
  predicate DistinctItems<T>(who: Identity<T>, s: seq<T>) {
    forall i, j | 0 <= i < j < |s| :: !Same(who, s[i], s[j])
  }

  /** The items of `incoming` that are newly accepted beside `kept`. */
  function Accept<T>(who: Identity<T>, kept: seq<T>, incoming: seq<T>): seq<T> {
    if incoming == [] then []
    else
      var accepted := Accept(who, kept, incoming[..|incoming| - 1]);
      var x := incoming[|incoming| - 1];
      if Clashes(who, x, kept + accepted) then accepted else accepted + [x]
  }

  lemma AcceptNext<T>(who: Identity<T>, kept: seq<T>, incoming: seq<T>, k: nat)
    requires k < |incoming|
    ensures var accepted := Accept(who, kept, incoming[..k]);
            Accept(who, kept, incoming[..k + 1]) ==
              if Clashes(who, incoming[k], kept + accepted) then accepted else accepted + [incoming[k]]
  {
    assert incoming[..k + 1][..k] == incoming[..k];
  }

  function Ids<T>(who: Identity<T>, s: seq<T>): set<string> {
    set i | 0 <= i < |s| :: who.id(s[i])
  }

  function Keys<T>(who: Identity<T>, s: seq<T>): set<string> {
    set i | 0 <= i < |s| :: who.key(s[i])
  }

  lemma ClashesIsLookup<T>(who: Identity<T>, x: T, kept: seq<T>)
    ensures Clashes(who, x, kept) <==> who.id(x) in Ids(who, kept) || who.key(x) in Keys(who, kept)
  {
    if who.id(x) in Ids(who, kept) {
      var i :| 0 <= i < |kept| && who.id(kept[i]) == who.id(x);
      assert Same(who, kept[i], x);
    }
    if who.key(x) in Keys(who, kept) {
      var i :| 0 <= i < |kept| && who.key(kept[i]) == who.key(x);
      assert Same(who, kept[i], x);
    }
  }

  lemma LookupsGrow<T>(who: Identity<T>, s: seq<T>, x: T)
    ensures Ids(who, s + [x]) == Ids(who, s) + {who.id(x)}
    ensures Keys(who, s + [x]) == Keys(who, s) + {who.key(x)}
  {
    var t := s + [x];
    assert t[|s|] == x;
    assert forall i | 0 <= i < |s| :: t[i] == s[i];
  }

  /** The loop: two sets of what is taken grow beside the accepted items. */
  method AcceptItems<T>(who: Identity<T>, kept: seq<T>, incoming: seq<T>) returns (accepted: seq<T>)
    ensures accepted == Accept(who, kept, incoming)
  {
    hide Clashes, Ids, Keys;
    var existingIds := Ids(who, kept);
    var existingKeys := Keys(who, kept);
    accepted := [];
    assert kept + accepted == kept && incoming[..0] == [];
    assert Accept(who, kept, []) == [];
    var k := 0;
    while k < |incoming|
      invariant 0 <= k <= |incoming|
      invariant accepted == Accept(who, kept, incoming[..k])
      invariant existingIds == Ids(who, kept + accepted) && existingKeys == Keys(who, kept + accepted)
    {
      var x := incoming[k];
      AcceptNext(who, kept, incoming, k);
      ClashesIsLookup(who, x, kept + accepted);
      k := k + 1;
      if who.id(x) in existingIds || who.key(x) in existingKeys {
        continue;
      }
      LookupsGrow(who, kept + accepted, x);
      Associative(kept, accepted, [x]);
      accepted := accepted + [x];
      existingIds := existingIds + {who.id(x)};
      existingKeys := existingKeys + {who.key(x)};
    }
    assert incoming[..k] == incoming;
  }

  /** What is accepted never breaks distinctness. */
  lemma {:induction false} AcceptIsDistinct<T>(who: Identity<T>, kept: seq<T>, incoming: seq<T>)
    requires DistinctItems(who, kept)
    ensures DistinctItems(who, kept + Accept(who, kept, incoming))
  {
    if incoming == [] {
      assert kept + [] == kept;
    } else {
      hide Same;
      var front, x := incoming[..|incoming| - 1], incoming[|incoming| - 1];
      AcceptIsDistinct(who, kept, front);
      var s := kept + Accept(who, kept, front);
      if !Clashes(who, x, s) {
        Associative(kept, Accept(who, kept, front), [x]);
        DistinctPush(who, s, x);
      }
    }
  }

  lemma DistinctPush<T>(who: Identity<T>, s: seq<T>, x: T)
    requires DistinctItems(who, s) && !Clashes(who, x, s)
    ensures DistinctItems(who, s + [x])
  {
    hide Same;
  }

  /** Accepting in two batches is accepting in one. */
  lemma {:induction false} AcceptInBatches<T>(who: Identity<T>, kept: seq<T>, a: seq<T>, b: seq<T>)
    ensures var first := Accept(who, kept, a);
            Accept(who, kept, a + b) == first + Accept(who, kept + first, b)
    decreases |b|
  {
    hide Clashes;
    if b == [] {
      assert a + b == a;
    } else {
      var front, x := b[..|b| - 1], b[|b| - 1];
      AcceptInBatches(who, kept, a, front);
      assert (a + b)[..|a + b| - 1] == a + front;
      Associative(kept, Accept(who, kept, a), Accept(who, kept + Accept(who, kept, a), front));
    }
  }

  /** Items that are distinct already are all accepted, beside nothing. */
  lemma {:induction false} AcceptKeepsDistinct<T>(who: Identity<T>, s: seq<T>)
    requires DistinctItems(who, s)
    ensures Accept(who, [], s) == s
  {
    if s != [] {
      hide Same;
      var front, x := s[..|s| - 1], s[|s| - 1];
      AcceptKeepsDistinct(who, front);
      assert [] + front == front;
      assert !Clashes(who, x, front);
      assert s == front + [x];
    }
  }

  /** Only ids and keys of what is kept matter. */
  ghost predicate Alike<T>(who: Identity<T>, s: seq<T>, t: seq<T>) {
    |s| == |t| && forall i | 0 <= i < |s| :: who.id(s[i]) == who.id(t[i]) && who.key(s[i]) == who.key(t[i])
  }

  lemma AlikeClashes<T>(who: Identity<T>, s: seq<T>, t: seq<T>, more: seq<T>, x: T)
    requires Alike(who, s, t)
    ensures Clashes(who, x, s + more) <==> Clashes(who, x, t + more)
  {
    var u, v := s + more, t + more;
    forall i | 0 <= i < |u| ensures Same(who, u[i], x) <==> Same(who, v[i], x) {
      if i >= |s| { assert u[i] == more[i - |s|] == v[i]; }
    }
  }

  lemma {:induction false} AlikeAccept<T>(who: Identity<T>, s: seq<T>, t: seq<T>, incoming: seq<T>)
    requires Alike(who, s, t)
    ensures Accept(who, s, incoming) == Accept(who, t, incoming)
  {
    hide Clashes, Alike;
    if incoming != [] {
      var front, x := incoming[..|incoming| - 1], incoming[|incoming| - 1];
      AlikeAccept(who, s, t, front);
      AlikeClashes(who, s, t, Accept(who, s, front), x);
    }
  }

  /** Running the loop over everything and cutting off the old items leaves exactly the newly
      accepted ones. */
  lemma SliceIsAccepted<T>(who: Identity<T>, kept: seq<T>, again: seq<T>, incoming: seq<T>)
    requires DistinctItems(who, kept) && Alike(who, kept, again)
    ensures var all := Accept(who, [], again + incoming);
            |all| >= |kept| && all[..|kept|] == again && all[|kept|..] == Accept(who, kept, incoming)
  {
    hide Accept, DistinctItems;
    assert |again| == |kept|;
    AlikeDistinct(who, kept, again);
    AcceptKeepsDistinct(who, again);
    AcceptInBatches(who, [], again, incoming);
    assert [] + again == again;
    AlikeAccept(who, kept, again, incoming);
  }

  lemma AlikeDistinct<T>(who: Identity<T>, s: seq<T>, t: seq<T>)
    requires DistinctItems(who, s) && Alike(who, s, t)
    ensures DistinctItems(who, t)
  {
    forall i, j | 0 <= i < j < |t| ensures !Same(who, t[i], t[j]) {
      assert !Same(who, s[i], s[j]);
    }
  }

  lemma ClashesMore<T>(who: Identity<T>, x: T, s: seq<T>, more: seq<T>)
    ensures Clashes(who, x, s) ==> Clashes(who, x, s + more)
    ensures x in more ==> Clashes(who, x, s + more)
  {
    var t := s + more;
    if i :| 0 <= i < |s| && Same(who, s[i], x) { assert t[i] == s[i]; }
    if i :| 0 <= i < |more| && more[i] == x { assert t[|s| + i] == x && Same(who, t[|s| + i], x); }
  }

  /** Every offered item clashes with what is kept afterwards, be it with itself. */
  lemma {:induction false} OfferedClashes<T>(who: Identity<T>, kept: seq<T>, incoming: seq<T>, x: T)
    requires x in incoming
    ensures Clashes(who, x, kept + Accept(who, kept, incoming))
  {
    hide Clashes, Same;
    var front, last := incoming[..|incoming| - 1], incoming[|incoming| - 1];
    var before, after := Accept(who, kept, front), Accept(who, kept, incoming);
    if x in front {
      OfferedClashes(who, kept, front, x);
      if after != before {
        ClashesMore(who, x, kept + before, [last]);
        Associative(kept, before, [last]);
      }
    } else if !Clashes(who, x, kept + before) {
      ClashesMore(who, x, kept + before, [last]);
      Associative(kept, before, [last]);
    }
  }

  lemma {:induction false} NothingNew<T>(who: Identity<T>, kept: seq<T>, incoming: seq<T>)
    requires forall x | x in incoming :: Clashes(who, x, kept)
    ensures Accept(who, kept, incoming) == []
  {
    hide Clashes;
    if incoming != [] {
      NothingNew(who, kept, incoming[..|incoming| - 1]);
      assert kept + [] == kept;
    }
  }

  /** Offering the same items again accepts none of them. */
  lemma OfferedTwice<T>(who: Identity<T>, kept: seq<T>, incoming: seq<T>)
    ensures Accept(who, kept + Accept(who, kept, incoming), incoming) == []
  {
    hide Accept, Clashes;
    var all := kept + Accept(who, kept, incoming);
    forall x | x in incoming ensures Clashes(who, x, all) { OfferedClashes(who, kept, incoming, x); }
    NothingNew(who, all, incoming);
  }

  /** Taking items out by their ids keeps the rest distinct. */
  lemma {:induction false} ExceptIsDistinct<T>(who: Identity<T>, s: seq<T>, ids: set<string>)
    requires DistinctItems(who, s)
    ensures DistinctItems(who, Except(who.id, s, ids))
  {
    hide Same, Clashes;
    if s != [] {
      var front, last := s[..|s| - 1], s[|s| - 1];
      ExceptIsDistinct(who, front, ids);
      var r := Except(who.id, front, ids);
      if who.id(last) !in ids {
        NoClashInPart(who, s, r, last, ids);
        DistinctPush(who, r, last);
      }
    }
  }

  lemma NoClashInPart<T>(who: Identity<T>, s: seq<T>, r: seq<T>, last: T, ids: set<string>)
    requires s != [] && DistinctItems(who, s) && last == s[|s| - 1] && r == Except(who.id, s[..|s| - 1], ids)
    ensures !Clashes(who, last, r)
  {
    hide Same;
    var front := s[..|s| - 1];
    forall i | 0 <= i < |r| ensures !Same(who, r[i], last) {
      ExceptMember(who.id, front, ids, r[i]);
      var j :| 0 <= j < |front| && front[j] == r[i];
      assert !Same(who, s[j], last);
    }
  }
}
