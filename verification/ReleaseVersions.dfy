/** Release versions and their order (`scripts/resolve-previous-release-tag.ts`). */
module ReleaseVersions {
  import opened Text
  import opened Sorting

  datatype Stable = Stable(major: nat, minor: nat, patch: nat, prerelease: seq<string>)

  datatype Nightly = Nightly(major: nat, minor: nat, patch: nat, date: nat, runNumber: nat)

  /** `parseNumericIdentifier` */
  function NumericIdentifier(s: string): Option<nat> {
    if s != [] && AllDigits(s) then Some(NatValue(s)) else None
  }

  /** `comparePrereleaseIdentifiers`; `collate` is `localeCompare`. */
  function CompareIdentifiers(collate: (string, string) -> int, left: string, right: string): int {
    match (NumericIdentifier(left), NumericIdentifier(right))
    case (Some(l), Some(r)) => l - r
    case (Some(_), None) => -1
    case (None, Some(_)) => 1
    case (None, None) => collate(left, right)
  }

  function ComparePrereleases(collate: (string, string) -> int, left: seq<string>, right: seq<string>): int {
    if left == [] && right == [] then 0
    else if left == [] then -1
    else if right == [] then 1
    else
      var comparison := CompareIdentifiers(collate, left[0], right[0]);
      if comparison != 0 then comparison else ComparePrereleases(collate, left[1..], right[1..])
  }

  function CompareCores(left: Stable, right: Stable): int {
    if left.major != right.major then left.major - right.major
    else if left.minor != right.minor then left.minor - right.minor
    else left.patch - right.patch
  }

  function CompareStable(collate: (string, string) -> int, left: Stable, right: Stable): int {
    if CompareCores(left, right) != 0 then CompareCores(left, right)
    else if left.prerelease == [] && right.prerelease == [] then 0
    else if left.prerelease == [] then 1
    else if right.prerelease == [] then -1
    else ComparePrereleases(collate, left.prerelease, right.prerelease)
  }

  lemma ComparePrereleasesStep(collate: (string, string) -> int, left: seq<string>, right: seq<string>, index: nat)
    requires index < |left| && index < |right|
    ensures var comparison := CompareIdentifiers(collate, left[index], right[index]);
            ComparePrereleases(collate, left[index..], right[index..]) ==
              if comparison != 0 then comparison else ComparePrereleases(collate, left[index + 1..], right[index + 1..])
  {
    assert left[index..][1..] == left[index + 1..] && right[index..][1..] == right[index + 1..];
  }

  /** `compareStableVersions` */
  method CompareStableVersions(collate: (string, string) -> int, left: Stable, right: Stable) returns (order: int)
    ensures order == CompareStable(collate, left, right)
  {
    if left.major != right.major { return left.major - right.major; }
    if left.minor != right.minor { return left.minor - right.minor; }
    if left.patch != right.patch { return left.patch - right.patch; }
    var leftHasPrerelease, rightHasPrerelease := |left.prerelease| > 0, |right.prerelease| > 0;
    if !leftHasPrerelease && !rightHasPrerelease { return 0; }
    if !leftHasPrerelease { return 1; }
    if !rightHasPrerelease { return -1; }
    hide CompareIdentifiers;
    var l, r := left.prerelease, right.prerelease;
    var maxLength := if |l| > |r| then |l| else |r|;
    var index := 0;
    assert l[0..] == l && r[0..] == r;
    while index < maxLength
      invariant 0 <= index <= |l| && index <= |r| && index <= maxLength
      invariant ComparePrereleases(collate, l, r) == ComparePrereleases(collate, l[index..], r[index..])
    {
      if index >= |l| { return -1; }
      if index >= |r| { return 1; }
      ComparePrereleasesStep(collate, l, r, index);
      var comparison := CompareIdentifiers(collate, l[index], r[index]);
      if comparison != 0 { return comparison; }
      index := index + 1;
    }
    return 0;
  }

  /** `compareNightlyVersions` */
  function CompareNightly(left: Nightly, right: Nightly): int {
    if left.major != right.major then left.major - right.major
    else if left.minor != right.minor then left.minor - right.minor
    else if left.patch != right.patch then left.patch - right.patch
    else if left.date != right.date then left.date - right.date
    else left.runNumber - right.runNumber
  }

  // Total preorders

  function StableOrder(collate: (string, string) -> int): (Stable, Stable) -> int {
    (a: Stable, b: Stable) => CompareStable(collate, a, b)
  }

  function NightlyOrder(): (Nightly, Nightly) -> int {
    (a: Nightly, b: Nightly) => CompareNightly(a, b)
  }

  lemma IdentifiersSymmetric(collate: (string, string) -> int, a: string, b: string)
    requires TotalPreorder(collate)
    ensures CompareIdentifiers(collate, a, b) < 0 <==> CompareIdentifiers(collate, b, a) > 0
    ensures CompareIdentifiers(collate, a, b) > 0 <==> CompareIdentifiers(collate, b, a) < 0
  {
    hide NumericIdentifier;
    assert collate(a, b) < 0 <==> collate(b, a) > 0;
    assert collate(b, a) < 0 <==> collate(a, b) > 0;
  }

  lemma IdentifiersTransitive(collate: (string, string) -> int, a: string, b: string, c: string)
    requires TotalPreorder(collate)
    requires CompareIdentifiers(collate, a, b) <= 0 && CompareIdentifiers(collate, b, c) <= 0
    ensures CompareIdentifiers(collate, a, c) <= 0
  {
    hide NumericIdentifier;
  }

  /** A chain is strict when one of its steps is. */
  lemma IdentifiersChain(collate: (string, string) -> int, a: string, b: string, c: string)
    requires TotalPreorder(collate)
    requires CompareIdentifiers(collate, a, b) <= 0 && CompareIdentifiers(collate, b, c) <= 0
    ensures CompareIdentifiers(collate, a, c) == 0 <==>
            CompareIdentifiers(collate, a, b) == 0 && CompareIdentifiers(collate, b, c) == 0
  {
    hide CompareIdentifiers;
    IdentifiersSymmetric(collate, a, b);
    IdentifiersSymmetric(collate, b, c);
    IdentifiersSymmetric(collate, a, c);
    IdentifiersTransitive(collate, a, b, c);
    if CompareIdentifiers(collate, a, c) == 0 {
      IdentifiersTransitive(collate, b, c, a);
      IdentifiersTransitive(collate, c, a, b);
    }
    if CompareIdentifiers(collate, a, b) == 0 && CompareIdentifiers(collate, b, c) == 0 {
      IdentifiersTransitive(collate, c, b, a);
    }
  }

  lemma {:induction false} PrereleasesSymmetric(collate: (string, string) -> int, a: seq<string>, b: seq<string>)
    requires TotalPreorder(collate)
    ensures ComparePrereleases(collate, a, b) < 0 <==> ComparePrereleases(collate, b, a) > 0
    ensures ComparePrereleases(collate, a, b) > 0 <==> ComparePrereleases(collate, b, a) < 0
    decreases |a|
  {
    hide CompareIdentifiers, TotalPreorder;
    if a != [] && b != [] {
      IdentifiersSymmetric(collate, a[0], b[0]);
      PrereleasesSymmetric(collate, a[1..], b[1..]);
    }
  }

  lemma {:induction false} PrereleasesTransitive(collate: (string, string) -> int, a: seq<string>, b: seq<string>, c: seq<string>)
    requires TotalPreorder(collate)
    requires ComparePrereleases(collate, a, b) <= 0 && ComparePrereleases(collate, b, c) <= 0
    ensures ComparePrereleases(collate, a, c) <= 0
    decreases |a|
  {
    hide CompareIdentifiers, TotalPreorder;
    if a != [] && b != [] && c != [] {
      IdentifiersTransitive(collate, a[0], b[0], c[0]);
      IdentifiersChain(collate, a[0], b[0], c[0]);
      if CompareIdentifiers(collate, a[0], c[0]) == 0 {
        PrereleasesTransitive(collate, a[1..], b[1..], c[1..]);
      }
    }
  }

  lemma StableSymmetric(collate: (string, string) -> int, a: Stable, b: Stable)
    requires TotalPreorder(collate)
    ensures CompareStable(collate, a, b) < 0 <==> CompareStable(collate, b, a) > 0
  {
    hide ComparePrereleases, TotalPreorder;
    PrereleasesSymmetric(collate, a.prerelease, b.prerelease);
  }

  lemma StableTransitive(collate: (string, string) -> int, a: Stable, b: Stable, c: Stable)
    requires TotalPreorder(collate)
    requires CompareStable(collate, a, b) <= 0 && CompareStable(collate, b, c) <= 0
    ensures CompareStable(collate, a, c) <= 0
  {
    hide ComparePrereleases, TotalPreorder;
    var p, q, r := a.prerelease, b.prerelease, c.prerelease;
    if ComparePrereleases(collate, p, q) <= 0 && ComparePrereleases(collate, q, r) <= 0 {
      PrereleasesTransitive(collate, p, q, r);
    }
  }

  /** Both comparators are total preorders, whatever total preorder compares texts. */
  lemma VersionsAreOrdered(collate: (string, string) -> int)
    requires TotalPreorder(collate)
    ensures TotalPreorder(StableOrder(collate)) && TotalPreorder(NightlyOrder())
  {
    hide CompareStable;
    var s, n := StableOrder(collate), NightlyOrder();
    forall a, b ensures s(a, b) < 0 <==> s(b, a) > 0 { StableSymmetric(collate, a, b); }
    forall a, b, c | s(a, b) <= 0 && s(b, c) <= 0 ensures s(a, c) <= 0 { StableTransitive(collate, a, b, c); }
    forall a, b ensures n(a, b) < 0 <==> n(b, a) > 0 {}
    forall a, b, c | n(a, b) <= 0 && n(b, c) <= 0 ensures n(a, c) <= 0 {}
  }

  // Precedence as Semantic Versioning 2.0.0 states it, clause 11

  /** Clauses 11.4.1 to 11.4.3: one identifier below another. */
  predicate IdentifierBelow(collate: (string, string) -> int, left: string, right: string) {
    var l, r := NumericIdentifier(left), NumericIdentifier(right);
    || (l.Some? && r.Some? && l.value < r.value)
    || (l.Some? && r.None?)
    || (l.None? && r.None? && collate(left, right) < 0)
  }

  predicate IdentifierSame(collate: (string, string) -> int, left: string, right: string) {
    var l, r := NumericIdentifier(left), NumericIdentifier(right);
    (l.Some? && l == r) || (l.None? && r.None? && collate(left, right) == 0)
  }

  /** Clause 11.4: the first difference decides, and 11.4.4: more identifiers win over fewer. */
  ghost predicate PrereleaseBelow(collate: (string, string) -> int, left: seq<string>, right: seq<string>) {
    exists k :: 0 <= k <= |left| && DiffersBelow(collate, left, right, k)
  }

  ghost predicate DiffersBelow(collate: (string, string) -> int, left: seq<string>, right: seq<string>, k: int)
    requires 0 <= k <= |left|
  {
    && k < |right|
    && (forall i | 0 <= i < k :: IdentifierSame(collate, left[i], right[i]))
    && (k == |left| || IdentifierBelow(collate, left[k], right[k]))
  }

  /** Clauses 11.2 and 11.3. */
  ghost predicate Precedes(collate: (string, string) -> int, left: Stable, right: Stable) {
    || left.major < right.major
    || (left.major == right.major && left.minor < right.minor)
    || (left.major == right.major && left.minor == right.minor && left.patch < right.patch)
    || (&& left.major == right.major && left.minor == right.minor && left.patch == right.patch
        && left.prerelease != []
        && (right.prerelease == [] || PrereleaseBelow(collate, left.prerelease, right.prerelease)))
  }

  lemma {:induction false} PrereleasesPrecede(collate: (string, string) -> int, left: seq<string>, right: seq<string>)
    ensures ComparePrereleases(collate, left, right) < 0 <==> PrereleaseBelow(collate, left, right)
    decreases |left|
  {
    hide IdentifierBelow, IdentifierSame, CompareIdentifiers;
    if left == [] {
      if right != [] { assert DiffersBelow(collate, left, right, 0); }
    } else if right != [] {
      var l, r := left[1..], right[1..];
      PrereleasesPrecede(collate, l, r);
      FirstIdentifiers(collate, left[0], right[0]);
      PrereleaseBelowStep(collate, left, right);
    }
  }

  lemma FirstIdentifiers(collate: (string, string) -> int, left: string, right: string)
    ensures CompareIdentifiers(collate, left, right) < 0 <==> IdentifierBelow(collate, left, right)
    ensures CompareIdentifiers(collate, left, right) == 0 <==> IdentifierSame(collate, left, right)
  {
    hide NumericIdentifier;
  }

  lemma PrereleaseBelowStep(collate: (string, string) -> int, left: seq<string>, right: seq<string>)
    requires left != [] && right != []
    ensures PrereleaseBelow(collate, left, right) <==>
            || IdentifierBelow(collate, left[0], right[0])
            || (IdentifierSame(collate, left[0], right[0]) && PrereleaseBelow(collate, left[1..], right[1..]))
  {
    hide IdentifierBelow, IdentifierSame;
    var l, r := left[1..], right[1..];
    if IdentifierBelow(collate, left[0], right[0]) { assert DiffersBelow(collate, left, right, 0); }
    if IdentifierSame(collate, left[0], right[0]) && PrereleaseBelow(collate, l, r) {
      var k :| 0 <= k <= |l| && DiffersBelow(collate, l, r, k);
      forall i | 0 <= i < k + 1 ensures IdentifierSame(collate, left[i], right[i]) {
        if i > 0 { assert l[i - 1] == left[i] && r[i - 1] == right[i]; }
      }
      assert DiffersBelow(collate, left, right, k + 1);
    }
    if k :| 0 < k <= |left| && DiffersBelow(collate, left, right, k) {
      forall i | 0 <= i < k - 1 ensures IdentifierSame(collate, l[i], r[i]) {
        assert l[i] == left[i + 1] && r[i] == right[i + 1];
      }
      assert DiffersBelow(collate, l, r, k - 1);
    }
  }

  /** The comparator is the precedence of the standard, with texts in the order of `collate`. */
  lemma ComparatorIsPrecedence(collate: (string, string) -> int, left: Stable, right: Stable)
    ensures CompareStable(collate, left, right) < 0 <==> Precedes(collate, left, right)
  {
    hide ComparePrereleases, PrereleaseBelow;
    PrereleasesPrecede(collate, left.prerelease, right.prerelease);
  }

  /** What a nightly version is ordered by, the weightiest first. */
  function NightlyParts(n: Nightly): seq<nat> {
    [n.major, n.minor, n.patch, n.date, n.runNumber]
  }

  predicate FirstDiffersAt(l: seq<nat>, r: seq<nat>, k: int) {
    0 <= k < |l| && k < |r| && l[k] != r[k] && forall i | 0 <= i < k :: l[i] == r[i]
  }

  /** Of two nightlies the one with the smaller number comes first, in the first part in which they
      differ; only equal ones compare as equal. */
  lemma NightliesPrecede(left: Nightly, right: Nightly)
    ensures var l, r := NightlyParts(left), NightlyParts(right);
      CompareNightly(left, right) < 0 <==> exists k :: FirstDiffersAt(l, r, k) && l[k] < r[k]
    ensures CompareNightly(left, right) == 0 <==> left == right
  {
    var l, r := NightlyParts(left), NightlyParts(right);
    assert l[0] == left.major && l[1] == left.minor && l[2] == left.patch && l[3] == left.date && l[4] == left.runNumber;
    assert r[0] == right.major && r[1] == right.minor && r[2] == right.patch && r[3] == right.date && r[4] == right.runNumber;
    if CompareNightly(left, right) < 0 {
      var k := if l[0] != r[0] then 0 else if l[1] != r[1] then 1 else if l[2] != r[2] then 2 else if l[3] != r[3] then 3 else 4;
      assert FirstDiffersAt(l, r, k);
    }
  }
}
