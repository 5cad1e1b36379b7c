/** A thread's terminals: ids, groups, and the normaliser every stored layout goes through. */
module TerminalLayout {
  import opened Text
  import opened Sequences

  datatype Group = Group(id: string, terminalIds: seq<string>)

  datatype Layout = Layout(
    terminalOpen: bool,
    terminalHeight: Number,
    terminalIds: seq<string>,
    runningTerminalIds: seq<string>,
    activeTerminalId: string,
    terminalGroups: seq<Group>,
    activeTerminalGroupId: string)

  const DEFAULT_ID := "default"
  const DEFAULT_HEIGHT := Finite(280.0)
  const MAX_PER_GROUP := 4

  function FallbackGroupId(terminalId: string): string {
    "group-" + terminalId
  }

  const DEFAULT_LAYOUT := Layout(false, DEFAULT_HEIGHT, [DEFAULT_ID], [], DEFAULT_ID,
                                 [Group(FallbackGroupId(DEFAULT_ID), [DEFAULT_ID])], FallbackGroupId(DEFAULT_ID))

  // Unique group ids

  /** `base`, `base-2`, `base-3`, ... */
  function Candidate(base: string, k: nat): string {
    if k == 0 then base else base + "-" + NatText(k + 1)
  }

  lemma CandidateInjective(base: string, j: nat, k: nat)
    requires Candidate(base, j) == Candidate(base, k)
    ensures j == k
  {
    hide NatText;
    var c := Candidate(base, j);
    if j > 0 && k > 0 {
      assert c[|base| + 1..] == NatText(j + 1) && c[|base| + 1..] == NatText(k + 1);
      NatTextInjective(j + 1, k + 1);
    }
  }

  /** The used ids that candidates from `k` on can still hit. */
  ghost function Ahead(base: string, used: set<string>, k: nat): set<string> {
    set u | u in used && exists j: nat :: j >= k && Candidate(base, j) == u
  }

  lemma AheadShrinks(base: string, used: set<string>, k: nat)
    requires Candidate(base, k) in used
    ensures |Ahead(base, used, k + 1)| < |Ahead(base, used, k)|
  {
    hide Candidate;
    var now, later := Ahead(base, used, k), Ahead(base, used, k + 1);
    var c := Candidate(base, k);
    assert c in now;
    if c in later {
      var j: nat :| j >= k + 1 && Candidate(base, j) == c;
      CandidateInjective(base, j, k);
      assert false;
    }
    assert later <= now - {c};
    Cardinality(later, now - {c});
  }

  lemma {:induction false} Cardinality(a: set<string>, b: set<string>)
    requires a <= b
    ensures |a| <= |b|
  {
    if a != {} {
      var x :| x in a;
      Cardinality(a - {x}, b - {x});
    }
  }

  /** The first candidate from `k` on that is free: finitely many used ids cannot block them all. */
  function FirstFree(base: string, used: set<string>, k: nat): (r: nat)
    ensures k <= r && Candidate(base, r) !in used
    ensures forall j: nat | k <= j < r :: Candidate(base, j) in used
    decreases |Ahead(base, used, k)|
  {
    if Candidate(base, k) in used then
      AheadShrinks(base, used, k);
      FirstFree(base, used, k + 1)
    else k
  }

  function UniqueGroupId(base: string, used: set<string>): string {
    Candidate(base, FirstFree(base, used, 0))
  }

  /** Terminates with the first unused id of the sequence, and marks it used. */
  method AssignUniqueGroupId(base: string, used: set<string>) returns (candidate: string, used': set<string>)
    ensures candidate == UniqueGroupId(base, used) && candidate !in used
    ensures used' == used + {candidate}
  {
    hide Candidate;
    candidate := base;
    ghost var k: nat := 0;
    var index: nat := 2;
    CandidateText(base, 0);
    while candidate in used
      invariant index == k + 2 && candidate == Candidate(base, k)
      invariant forall j: nat | j < k :: Candidate(base, j) in used
      decreases |Ahead(base, used, k)|
    {
      AheadShrinks(base, used, k);
      candidate := base + "-" + NatText(index);
      index := index + 1;
      k := k + 1;
      CandidateText(base, k);
    }
    assert FirstFree(base, used, 0) == k;
    used' := used + {candidate};
  }

  lemma CandidateText(base: string, k: nat)
    ensures Candidate(base, k) == if k == 0 then base else base + "-" + NatText(k + 1)
  {}

  // The normaliser

  /** `ids.map(trim).filter(nonEmpty)` */
  function TrimmedNonEmpty(ids: seq<string>): seq<string> {
    if ids == [] then []
    else if Trim(ids[0]) == [] then TrimmedNonEmpty(ids[1..])
    else [Trim(ids[0])] + TrimmedNonEmpty(ids[1..])
  }

  function NormalizeGroupIds(ids: seq<string>): seq<string> {
    Dedup(TrimmedNonEmpty(ids))
  }

  function NormalizeTerminalIds(ids: seq<string>): seq<string> {
    var r := NormalizeGroupIds(ids);
    if r != [] then r else [DEFAULT_ID]
  }

  /** `ids.map(trim).filter(id => nonEmpty(id) && valid.has(id))` */
  function TrimmedValid(ids: seq<string>, valid: seq<string>): seq<string> {
    if ids == [] then []
    else
      var t := Trim(ids[0]);
      if t != [] && t in valid then [t] + TrimmedValid(ids[1..], valid) else TrimmedValid(ids[1..], valid)
  }

  /** De-duplicated before trimming. */
  function NormalizeRunning(running: seq<string>, valid: seq<string>): seq<string> {
    TrimmedValid(Dedup(running), valid)
  }

  function MemberIds(groups: seq<Group>): set<string> {
    set g, x | g in groups && x in g.terminalIds :: x
  }

  function GroupIds(groups: seq<Group>): set<string> {
    set g | g in groups :: g.id
  }

  /** `ids.filter(id => valid.has(id) && !claimed.has(id))` */
  function Unassigned(ids: seq<string>, valid: seq<string>, claimed: set<string>): seq<string> {
    if ids == [] then []
    else if ids[0] in valid && ids[0] !in claimed then [ids[0]] + Unassigned(ids[1..], valid, claimed)
    else Unassigned(ids[1..], valid, claimed)
  }

  /** One more input group on top of the groups already taken over. */
  function TakeGroup(done: seq<Group>, group: Group, valid: seq<string>): seq<Group> {
    var ids := Unassigned(NormalizeGroupIds(group.terminalIds), valid, MemberIds(done));
    if ids == [] then done
    else
      var base := if Trim(group.id) != [] then Trim(group.id) else FallbackGroupId(ids[0]);
      done + [Group(UniqueGroupId(base, GroupIds(done)), ids)]
  }

  function TakeGroups(done: seq<Group>, groups: seq<Group>, valid: seq<string>): seq<Group>
    decreases |groups|
  {
    if groups == [] then done else TakeGroups(TakeGroup(done, groups[0], valid), groups[1..], valid)
  }

  /** Every terminal left over gets a group of its own. */
  function AddLeftovers(done: seq<Group>, ids: seq<string>, claimed: set<string>): seq<Group>
    decreases |ids|
  {
    if ids == [] then done
    else if ids[0] in claimed then AddLeftovers(done, ids[1..], claimed)
    else AddLeftovers(done + [Group(UniqueGroupId(FallbackGroupId(ids[0]), GroupIds(done)), [ids[0]])], ids[1..], claimed)
  }

  function NormalizeGroups(groups: seq<Group>, ids: seq<string>): seq<Group> {
    var taken := TakeGroups([], groups, ids);
    var all := AddLeftovers(taken, ids, MemberIds(taken));
    if all == [] then [Group(FallbackGroupId(DEFAULT_ID), [DEFAULT_ID])] else all
  }

  /** The program's loops: one set of claimed terminals, one of used group ids. */
  method NormalizeTerminalGroups(terminalGroups: seq<Group>, terminalIds: seq<string>) returns (nextGroups: seq<Group>)
    ensures nextGroups == NormalizeGroups(terminalGroups, terminalIds)
  {
    hide UniqueGroupId, NormalizeGroupIds, Unassigned, FallbackGroupId, Trim;
    var assignedTerminalIds: set<string> := {};
    var usedGroupIds: set<string> := {};
    nextGroups := [];
    for i := 0 to |terminalGroups|
      invariant assignedTerminalIds == MemberIds(nextGroups) && usedGroupIds == GroupIds(nextGroups)
      invariant TakeGroups(nextGroups, terminalGroups[i..], terminalIds) == TakeGroups([], terminalGroups, terminalIds)
    {
      var group := terminalGroups[i];
      assert terminalGroups[i..][0] == group && terminalGroups[i..][1..] == terminalGroups[i + 1..];
      var groupTerminalIds := Unassigned(NormalizeGroupIds(group.terminalIds), terminalIds, assignedTerminalIds);
      if groupTerminalIds == [] {
        continue;
      }
      assignedTerminalIds := assignedTerminalIds + (set x | x in groupTerminalIds);
      var baseGroupId := if Trim(group.id) != [] then Trim(group.id) else FallbackGroupId(groupTerminalIds[0]);
      var id;
      id, usedGroupIds := AssignUniqueGroupId(baseGroupId, usedGroupIds);
      AddedGroup(nextGroups, Group(id, groupTerminalIds));
      nextGroups := nextGroups + [Group(id, groupTerminalIds)];
    }
    ghost var taken := nextGroups;
    assert terminalGroups[|terminalGroups|..] == [];
    assert taken == TakeGroups([], terminalGroups, terminalIds);
    for i := 0 to |terminalIds|
      invariant usedGroupIds == GroupIds(nextGroups)
      invariant AddLeftovers(nextGroups, terminalIds[i..], assignedTerminalIds) == AddLeftovers(taken, terminalIds, assignedTerminalIds)
    {
      var terminalId := terminalIds[i];
      assert terminalIds[i..][0] == terminalId && terminalIds[i..][1..] == terminalIds[i + 1..];
      if terminalId in assignedTerminalIds {
        continue;
      }
      var id;
      id, usedGroupIds := AssignUniqueGroupId(FallbackGroupId(terminalId), usedGroupIds);
      AddedGroup(nextGroups, Group(id, [terminalId]));
      nextGroups := nextGroups + [Group(id, [terminalId])];
    }
    assert terminalIds[|terminalIds|..] == [];
    if nextGroups == [] {
      nextGroups := [Group(FallbackGroupId(DEFAULT_ID), [DEFAULT_ID])];
    }
  }

  lemma AddedGroup(groups: seq<Group>, g: Group)
    ensures MemberIds(groups + [g]) == MemberIds(groups) + set x | x in g.terminalIds
    ensures GroupIds(groups + [g]) == GroupIds(groups) + {g.id}
  {}

  function HasGroup(groups: seq<Group>, id: string): bool {
    exists g | g in groups :: g.id == id
  }

  /** Index of the first group with the terminal; the number of groups when there is none. */
  function GroupIndexOf(groups: seq<Group>, terminalId: string): (i: nat)
    ensures i <= |groups| && (i < |groups| ==> terminalId in groups[i].terminalIds)
    ensures forall j | 0 <= j < i :: terminalId !in groups[j].terminalIds
  {
    if groups == [] || terminalId in groups[0].terminalIds then 0 else 1 + GroupIndexOf(groups[1..], terminalId)
  }

  function HeightOrDefault(height: Number): Number {
    if height.Finite? && height.value > 0.0 then height else DEFAULT_HEIGHT
  }

  function ActiveGroup(groups: seq<Group>, wanted: string, activeTerminalId: string): string
    requires groups != []
  {
    if HasGroup(groups, wanted) then wanted
    else
      var i := GroupIndexOf(groups, activeTerminalId);
      if i < |groups| then groups[i].id else groups[0].id
  }

  function Normalize(s: Layout): Layout {
    var ids := NormalizeTerminalIds(s.terminalIds);
    var active := if s.activeTerminalId in ids then s.activeTerminalId else ids[0];
    var groups := NormalizeGroups(s.terminalGroups, ids);
    Layout(s.terminalOpen, HeightOrDefault(s.terminalHeight), ids, NormalizeRunning(s.runningTerminalIds, ids), active,
           groups, ActiveGroup(groups, s.activeTerminalGroupId, active))
  }

  // Well-formed layouts

  predicate IsId(id: string) {
    id != [] && Trimmed(id)
  }

  ghost predicate IdsOk(ids: seq<string>) {
    NoDuplicates(ids) && forall x | x in ids :: IsId(x)
  }

  ghost predicate GroupOk(g: Group) {
    IsId(g.id) && g.terminalIds != [] && NoDuplicates(g.terminalIds)
  }

  ghost predicate Apart(a: Group, b: Group) {
    a.id != b.id && forall x | x in a.terminalIds :: x !in b.terminalIds
  }

  ghost predicate GroupsOk(groups: seq<Group>) {
    && (forall g | g in groups :: GroupOk(g))
    && (forall i, j | 0 <= i < j < |groups| :: Apart(groups[i], groups[j]))
  }

  /** Terminal ids are trimmed, non-empty and distinct; non-empty groups with distinct ids
      partition them; running ids are a distinct subset; the active ids exist. */
  ghost predicate WellFormed(s: Layout) {
    && s.terminalIds != [] && IdsOk(s.terminalIds)
    && GroupsOk(s.terminalGroups) && MemberIds(s.terminalGroups) == (set x | x in s.terminalIds)
    && NoDuplicates(s.runningTerminalIds) && (forall x | x in s.runningTerminalIds :: x in s.terminalIds)
    && s.activeTerminalId in s.terminalIds
    && HasGroup(s.terminalGroups, s.activeTerminalGroupId)
    && s.terminalHeight.Finite? && s.terminalHeight.value > 0.0
  }

  // A well-formed layout is left alone

  lemma {:induction false} TrimmedNonEmptyFixes(ids: seq<string>)
    requires forall x | x in ids :: IsId(x)
    ensures TrimmedNonEmpty(ids) == ids
  {
    hide Trim, Trimmed;
    if ids != [] {
      assert IsId(ids[0]);
      TrimFixes(ids[0]);
      TrimmedNonEmptyFixes(ids[1..]);
    }
  }

  lemma NormalizeGroupIdsFixes(ids: seq<string>)
    requires IdsOk(ids)
    ensures NormalizeGroupIds(ids) == ids
  {
    hide Dedup, TrimmedNonEmpty;
    TrimmedNonEmptyFixes(ids);
    DedupFixes(ids);
  }

  lemma {:induction false} UnassignedFixes(ids: seq<string>, valid: seq<string>, claimed: set<string>)
    requires forall x | x in ids :: x in valid && x !in claimed
    ensures Unassigned(ids, valid, claimed) == ids
  {
    if ids != [] {
      UnassignedFixes(ids[1..], valid, claimed);
    }
  }

  lemma FreshGroupId(base: string, used: set<string>)
    requires base !in used
    ensures UniqueGroupId(base, used) == base
  {
    CandidateText(base, 0);
  }

  lemma TakeGroupFixes(groups: seq<Group>, i: nat, valid: seq<string>)
    requires i < |groups| && GroupsOk(groups) && IdsOk(valid) && MemberIds(groups) <= set x | x in valid
    ensures TakeGroup(groups[..i], groups[i], valid) == groups[..i + 1]
  {
    hide UniqueGroupId, NormalizeGroupIds, Unassigned, Trim, Trimmed;
    var g, done := groups[i], groups[..i];
    assert GroupOk(g);
    forall x | x in g.terminalIds ensures x in valid && x !in MemberIds(done) {
      assert x in MemberIds(groups);
      forall h | h in done ensures x !in h.terminalIds {
        var j :| 0 <= j < |done| && done[j] == h;
        assert Apart(groups[j], g);
      }
    }
    NormalizeGroupIdsFixes(g.terminalIds);
    UnassignedFixes(g.terminalIds, valid, MemberIds(done));
    TrimFixes(g.id);
    assert g.id !in GroupIds(done) by {
      forall h | h in done ensures h.id != g.id {
        var j :| 0 <= j < |done| && done[j] == h;
        assert Apart(groups[j], g);
      }
    }
    FreshGroupId(g.id, GroupIds(done));
  }

  lemma {:induction false} TakeGroupsFixes(groups: seq<Group>, i: nat, valid: seq<string>)
    requires i <= |groups| && GroupsOk(groups) && IdsOk(valid) && MemberIds(groups) <= set x | x in valid
    ensures TakeGroups(groups[..i], groups[i..], valid) == groups
    decreases |groups| - i
  {
    hide TakeGroup, GroupsOk, IdsOk, MemberIds;
    if i == |groups| {
      assert groups[..i] == groups;
    } else {
      TakeGroupFixes(groups, i, valid);
      TakeGroupsFixes(groups, i + 1, valid);
      assert groups[i..][0] == groups[i] && groups[i..][1..] == groups[i + 1..];
    }
  }

  lemma {:induction false} NoLeftovers(done: seq<Group>, ids: seq<string>, claimed: set<string>)
    requires forall x | x in ids :: x in claimed
    ensures AddLeftovers(done, ids, claimed) == done
    decreases |ids|
  {
    if ids != [] {
      NoLeftovers(done, ids[1..], claimed);
    }
  }

  lemma NormalizeGroupsFixes(groups: seq<Group>, ids: seq<string>)
    requires groups != [] && GroupsOk(groups) && IdsOk(ids) && MemberIds(groups) == set x | x in ids
    ensures NormalizeGroups(groups, ids) == groups
  {
    hide TakeGroups, AddLeftovers, GroupsOk, IdsOk;
    TakeGroupsFixes(groups, 0, ids);
    assert groups[..0] == [] && groups[0..] == groups;
    NoLeftovers(groups, ids, MemberIds(groups));
  }

  lemma {:induction false} TrimmedValidFixes(ids: seq<string>, valid: seq<string>)
    requires forall x | x in ids :: x in valid && IsId(x)
    ensures TrimmedValid(ids, valid) == ids
  {
    hide Trim, Trimmed;
    if ids != [] {
      assert IsId(ids[0]);
      TrimFixes(ids[0]);
      TrimmedValidFixes(ids[1..], valid);
    }
  }

  lemma NormalizeRunningFixes(running: seq<string>, valid: seq<string>)
    requires NoDuplicates(running) && IdsOk(valid) && forall x | x in running :: x in valid
    ensures NormalizeRunning(running, valid) == running
  {
    hide Dedup, TrimmedValid, IsId;
    DedupFixes(running);
    TrimmedValidFixes(running, valid);
  }

  lemma SomeGroup(s: Layout)
    requires WellFormed(s)
    ensures s.terminalGroups != []
  {
    assert s.terminalIds[0] in MemberIds(s.terminalGroups);
  }

  /** The normaliser leaves every well-formed layout as it is. */
  lemma NormalizeFixes(s: Layout)
    requires WellFormed(s)
    ensures Normalize(s) == s
  {
    hide NormalizeGroupIds, NormalizeGroups, NormalizeRunning, IdsOk, GroupsOk, NoDuplicates, MemberIds, GroupIndexOf;
    SomeGroup(s);
    NormalizeGroupIdsFixes(s.terminalIds);
    NormalizeGroupsFixes(s.terminalGroups, s.terminalIds);
    NormalizeRunningFixes(s.runningTerminalIds, s.terminalIds);
  }

  // What the normaliser makes of any layout

  lemma {:induction false} TrimmedNonEmptySpec(ids: seq<string>)
    ensures forall x | x in TrimmedNonEmpty(ids) :: IsId(x)
    ensures forall x | x in ids && Trim(x) != [] :: Trim(x) in TrimmedNonEmpty(ids)
    ensures forall y | y in TrimmedNonEmpty(ids) :: exists x :: x in ids && Trim(x) == y
  {
    hide Trim, Trimmed;
    if ids != [] {
      TrimIsTrimmed(ids[0]);
      TrimmedNonEmptySpec(ids[1..]);
      forall y | y in TrimmedNonEmpty(ids[1..]) ensures exists x :: x in ids && Trim(x) == y {
        var x :| x in ids[1..] && Trim(x) == y;
        assert x in ids;
      }
    }
  }

  lemma NormalizedGroupIdsOk(ids: seq<string>)
    ensures IdsOk(NormalizeGroupIds(ids))
  {
    hide Dedup, TrimmedNonEmpty, IsId;
    TrimmedNonEmptySpec(ids);
    DedupMembers(TrimmedNonEmpty(ids));
    DedupIsDistinct(TrimmedNonEmpty(ids));
  }

  lemma DefaultIdOk()
    ensures IsId(DEFAULT_ID) && IsId(FallbackGroupId(DEFAULT_ID))
  {}

  lemma NormalizedIdsOk(ids: seq<string>)
    ensures IdsOk(NormalizeTerminalIds(ids)) && NormalizeTerminalIds(ids) != []
  {
    hide NormalizeGroupIds, IsId;
    NormalizedGroupIdsOk(ids);
    DefaultIdOk();
  }

  lemma {:induction false} UnassignedSpec(ids: seq<string>, valid: seq<string>, claimed: set<string>)
    ensures forall x :: x in Unassigned(ids, valid, claimed) <==> x in ids && x in valid && x !in claimed
    ensures NoDuplicates(ids) ==> NoDuplicates(Unassigned(ids, valid, claimed))
  {
    if ids != [] {
      UnassignedSpec(ids[1..], valid, claimed);
      if NoDuplicates(ids) {
        assert forall i | 0 <= i < |ids[1..]| :: ids[1..][i] == ids[i + 1];
        assert ids[0] !in ids[1..];
        assert NoDuplicates(ids[1..]);
      }
    }
  }

  lemma FallbackIsId(terminalId: string)
    requires IsId(terminalId)
    ensures IsId(FallbackGroupId(terminalId))
  {
    var f := FallbackGroupId(terminalId);
    assert f[|f| - 1] == terminalId[|terminalId| - 1] && f[0] == 'g';
  }

  lemma UniqueIsId(base: string, used: set<string>)
    requires IsId(base)
    ensures IsId(UniqueGroupId(base, used)) && UniqueGroupId(base, used) !in used
  {
    hide Candidate;
    CandidateIsId(base, FirstFree(base, used, 0));
  }

  lemma CandidateIsId(base: string, k: nat)
    requires IsId(base)
    ensures IsId(Candidate(base, k))
  {
    hide NatText;
    if k > 0 {
      var n := NatText(k + 1);
      var c := Candidate(base, k);
      assert c == base + "-" + n;
      assert c[0] == base[0] && c[|c| - 1] == n[|n| - 1];
      assert IsDigit(n[|n| - 1]);
    }
  }

  /** Adding a group whose id and members are new. */
  lemma AddGroupOk(done: seq<Group>, g: Group)
    requires GroupsOk(done) && GroupOk(g) && g.id !in GroupIds(done)
    requires forall x | x in g.terminalIds :: x !in MemberIds(done)
    ensures GroupsOk(done + [g])
    ensures MemberIds(done + [g]) == MemberIds(done) + set x | x in g.terminalIds
  {
    hide GroupOk;
    AddedGroup(done, g);
    forall i | 0 <= i < |done| ensures Apart(done[i], g) {
      assert done[i] in done && done[i].id in GroupIds(done);
      forall x | x in done[i].terminalIds ensures x !in g.terminalIds {
        assert x in MemberIds(done);
      }
    }
  }

  lemma TakeGroupOk(done: seq<Group>, group: Group, valid: seq<string>)
    requires GroupsOk(done) && MemberIds(done) <= (set x | x in valid) && IdsOk(valid)
    ensures var r := TakeGroup(done, group, valid); GroupsOk(r) && MemberIds(r) <= (set x | x in valid)
  {
    hide UniqueGroupId, NormalizeGroupIds, Unassigned, Trim, GroupsOk, MemberIds, GroupIds, FallbackGroupId, Trimmed;
    var normalized := NormalizeGroupIds(group.terminalIds);
    NormalizedGroupIdsOk(group.terminalIds);
    var ids := Unassigned(normalized, valid, MemberIds(done));
    UnassignedSpec(normalized, valid, MemberIds(done));
    if ids != [] {
      assert ids[0] in normalized;
      TrimIsTrimmed(group.id);
      FallbackIsId(ids[0]);
      var base := if Trim(group.id) != [] then Trim(group.id) else FallbackGroupId(ids[0]);
      UniqueIsId(base, GroupIds(done));
      AddGroupOk(done, Group(UniqueGroupId(base, GroupIds(done)), ids));
    }
  }

  lemma {:induction false} TakeGroupsOk(done: seq<Group>, groups: seq<Group>, valid: seq<string>)
    requires GroupsOk(done) && MemberIds(done) <= (set x | x in valid) && IdsOk(valid)
    ensures var r := TakeGroups(done, groups, valid); GroupsOk(r) && MemberIds(r) <= (set x | x in valid)
    decreases |groups|
  {
    hide TakeGroup, GroupsOk, MemberIds, IdsOk;
    if groups != [] {
      TakeGroupOk(done, groups[0], valid);
      TakeGroupsOk(TakeGroup(done, groups[0], valid), groups[1..], valid);
    }
  }

  lemma {:induction false} AddLeftoversOk(done: seq<Group>, ids: seq<string>, claimed: set<string>)
    requires GroupsOk(done) && IdsOk(ids)
    requires forall x | x in ids :: x in MemberIds(done) <==> x in claimed
    ensures var r := AddLeftovers(done, ids, claimed);
      GroupsOk(r) && MemberIds(r) == MemberIds(done) + set x | x in ids
    decreases |ids|
  {
    hide UniqueGroupId, GroupsOk, MemberIds, GroupIds, FallbackGroupId, IsId;
    if ids != [] {
      var x, rest := ids[0], ids[1..];
      assert forall i | 0 <= i < |rest| :: rest[i] == ids[i + 1];
      assert x !in rest && IdsOk(rest);
      if x in claimed {
        AddLeftoversOk(done, rest, claimed);
      } else {
        FallbackIsId(x);
        UniqueIsId(FallbackGroupId(x), GroupIds(done));
        var g := Group(UniqueGroupId(FallbackGroupId(x), GroupIds(done)), [x]);
        AddGroupOk(done, g);
        AddLeftoversOk(done + [g], rest, claimed);
      }
    }
  }

  lemma NoGroupsOk()
    ensures GroupsOk([]) && MemberIds([]) == {}
  {}

  lemma NormalizedGroupsOk(groups: seq<Group>, ids: seq<string>)
    requires ids != [] && IdsOk(ids)
    ensures var r := NormalizeGroups(groups, ids); r != [] && GroupsOk(r) && MemberIds(r) == set x | x in ids
  {
    hide TakeGroups, AddLeftovers, GroupsOk, MemberIds, IdsOk;
    var taken := TakeGroups([], groups, ids);
    NoGroupsOk();
    TakeGroupsOk([], groups, ids);
    AddLeftoversOk(taken, ids, MemberIds(taken));
    assert ids[0] in MemberIds(AddLeftovers(taken, ids, MemberIds(taken)));
  }

  lemma {:induction false} TrimmedValidSpec(ids: seq<string>, valid: seq<string>)
    ensures forall x | x in TrimmedValid(ids, valid) :: x in valid && exists y :: y in ids && Trim(y) == x
    ensures forall y | y in ids && Trim(y) != [] && Trim(y) in valid :: Trim(y) in TrimmedValid(ids, valid)
  {
    hide Trim;
    if ids != [] {
      TrimmedValidSpec(ids[1..], valid);
      forall x | x in TrimmedValid(ids, valid) ensures x in valid && exists y :: y in ids && Trim(y) == x {
        if x in TrimmedValid(ids[1..], valid) {
          var y :| y in ids[1..] && Trim(y) == x;
          assert y in ids;
        } else {
          assert ids[0] in ids;
        }
      }
    }
  }

  /** Two different listed entries that trim to the same valid id. */
  ghost predicate Clash(running: seq<string>, valid: seq<string>, a: string, b: string) {
    a in running && b in running && a != b && Trim(a) == Trim(b) && Trim(a) != [] && Trim(a) in valid
  }

  ghost predicate ClashFree(running: seq<string>, valid: seq<string>) {
    forall a, b :: !Clash(running, valid, a, b)
  }

  lemma {:induction false} TrimmedValidDistinct(ids: seq<string>, valid: seq<string>)
    requires NoDuplicates(ids)
    ensures NoDuplicates(TrimmedValid(ids, valid)) <==> ClashFree(ids, valid)
  {
    hide Trim;
    if ids != [] {
      var x, rest := ids[0], ids[1..];
      var t, r := Trim(x), TrimmedValid(rest, valid);
      assert forall i | 0 <= i < |rest| :: rest[i] == ids[i + 1];
      assert x !in rest && NoDuplicates(rest);
      TrimmedValidDistinct(rest, valid);
      TrimmedValidSpec(rest, valid);
      ClashStep(ids, valid);
      if t != [] && t in valid {
        assert TrimmedValid(ids, valid) == [t] + r;
        DistinctCons(t, r);
      }
    }
  }

  lemma DistinctCons(t: string, r: seq<string>)
    ensures NoDuplicates([t] + r) <==> t !in r && NoDuplicates(r)
  {
    var all := [t] + r;
    assert forall i | 0 <= i < |r| :: all[i + 1] == r[i];
    if NoDuplicates(all) {
      forall i, j | 0 <= i < j < |r| ensures r[i] != r[j] { assert all[i + 1] != all[j + 1]; }
      forall i | 0 <= i < |r| ensures r[i] != t { assert all[0] != all[i + 1]; }
    }
  }

  lemma ClashStep(ids: seq<string>, valid: seq<string>)
    requires ids != [] && ids[0] !in ids[1..]
    ensures var x, rest := ids[0], ids[1..];
      ClashFree(ids, valid) <==> ClashFree(rest, valid) && forall b | b in rest :: !Clash(ids, valid, x, b)
  {
    hide Trim;
    var x, rest := ids[0], ids[1..];
    assert forall a :: a in ids <==> a == x || a in rest;
    if ClashFree(ids, valid) {
      forall a, b ensures !Clash(rest, valid, a, b) { assert !Clash(ids, valid, a, b); }
    }
    if ClashFree(rest, valid) && forall b | b in rest :: !Clash(ids, valid, x, b) {
      forall a, b ensures !Clash(ids, valid, a, b) {
        assert !Clash(rest, valid, a, b);
        if a == x && b in rest { assert !Clash(ids, valid, x, b); }
        if b == x && a in rest { assert !Clash(ids, valid, x, a); }
      }
    }
  }

  lemma DedupClashes(running: seq<string>, valid: seq<string>)
    ensures ClashFree(Dedup(running), valid) <==> ClashFree(running, valid)
  {
    hide Dedup, Trim;
    DedupMembers(running);
    forall a, b ensures Clash(Dedup(running), valid, a, b) <==> Clash(running, valid, a, b) {}
    if ClashFree(Dedup(running), valid) {
      forall a, b ensures !Clash(running, valid, a, b) { assert !Clash(Dedup(running), valid, a, b); }
    }
    if ClashFree(running, valid) {
      forall a, b ensures !Clash(Dedup(running), valid, a, b) { assert !Clash(running, valid, a, b); }
    }
  }

  /** No two different running entries trim to the same listed terminal. */
  ghost predicate RunningDistinctAfterTrim(s: Layout) {
    ClashFree(s.runningTerminalIds, NormalizeTerminalIds(s.terminalIds))
  }

  lemma NormalizedRunningOk(running: seq<string>, valid: seq<string>)
    ensures NoDuplicates(NormalizeRunning(running, valid)) <==> ClashFree(running, valid)
    ensures forall x | x in NormalizeRunning(running, valid) :: x in valid
  {
    hide Dedup, TrimmedValid, Trim;
    DedupIsDistinct(running);
    DedupClashes(running, valid);
    TrimmedValidDistinct(Dedup(running), valid);
    TrimmedValidSpec(Dedup(running), valid);
  }

  lemma ActiveGroupExists(groups: seq<Group>, wanted: string, active: string)
    requires groups != []
    ensures HasGroup(groups, ActiveGroup(groups, wanted, active))
  {
    hide GroupIndexOf;
    var i := GroupIndexOf(groups, active);
    if i < |groups| { assert groups[i] in groups; }
    assert groups[0] in groups;
  }

  /** The normaliser makes any layout well-formed, but for running ids that trim to the same
      listed terminal; those it keeps twice. */
  lemma NormalizeMakesWellFormed(s: Layout)
    ensures WellFormed(Normalize(s)) <==> RunningDistinctAfterTrim(s)
    ensures NoDuplicates(Normalize(s).runningTerminalIds) ==> WellFormed(Normalize(s))
  {
    hide NormalizeTerminalIds, NormalizeGroups, NormalizeRunning, ActiveGroup, IdsOk, GroupsOk, NoDuplicates, MemberIds,
         ClashFree, HasGroup;
    var ids := NormalizeTerminalIds(s.terminalIds);
    NormalizedIdsOk(s.terminalIds);
    NormalizedGroupsOk(s.terminalGroups, ids);
    NormalizedRunningOk(s.runningTerminalIds, ids);
    ActiveGroupExists(NormalizeGroups(s.terminalGroups, ids), s.activeTerminalGroupId, Normalize(s).activeTerminalId);
  }

  /** Normalising twice is normalising once, exactly when no two different running entries trim
      to the same listed terminal. */
  lemma NormalizeIsIdempotent(s: Layout)
    ensures Normalize(Normalize(s)) == Normalize(s) <==> RunningDistinctAfterTrim(s)
  {
    hide Normalize, RunningDistinctAfterTrim, WellFormed;
    NormalizeMakesWellFormed(s);
    var n := Normalize(s);
    if WellFormed(n) {
      NormalizeFixes(n);
    } else if Normalize(n) == n {
      RunningOfNormal(n);
    }
  }

  /** A layout the normaliser leaves alone lists every running id once. */
  lemma RunningOfNormal(n: Layout)
    requires Normalize(n) == n
    ensures NoDuplicates(n.runningTerminalIds)
  {
    hide NormalizeTerminalIds, NormalizeGroups, ActiveGroup, Trim;
    var running, ids := n.runningTerminalIds, n.terminalIds;
    TrimmedValidLength(Dedup(running), ids);
    DedupFixes(running);
    assert |TrimmedValid(Dedup(running), ids)| == |running|;
    assert |Dedup(running)| == |running|;
    DedupFull(running);
  }

  lemma {:induction false} TrimmedValidLength(ids: seq<string>, valid: seq<string>)
    ensures |TrimmedValid(ids, valid)| <= |ids|
  {
    if ids != [] { TrimmedValidLength(ids[1..], valid); }
  }

  lemma {:induction false} DedupFull(s: seq<string>)
    requires |Dedup(s)| == |s|
    ensures Dedup(s) == s
  {
    if s != [] {
      var n := |s| - 1;
      DedupFixes(s[..n]);
      DedupFull(s[..n]);
      assert s == s[..n] + [s[n]];
    }
  }

  /** A layout that takes two normalisations: both spellings of one terminal are running. */
  lemma TwiceRunning()
    ensures var s := DEFAULT_LAYOUT.(runningTerminalIds := ["default", " default"]);
      !RunningDistinctAfterTrim(s) && Normalize(Normalize(s)) != Normalize(s)
  {
    var s := DEFAULT_LAYOUT.(runningTerminalIds := ["default", " default"]);
    hide Normalize, NormalizeTerminalIds;
    TrimFixes("default");
    assert " default"[1..] == "default";
    assert TrimStart(" default") == "default" && TrimStart("default") == "default";
    assert Trim(" default") == "default";
    DefaultIds();
    assert Clash(s.runningTerminalIds, NormalizeTerminalIds(s.terminalIds), "default", " default");
    NormalizeIsIdempotent(s);
  }

  lemma DefaultIds()
    ensures NormalizeTerminalIds([DEFAULT_ID]) == [DEFAULT_ID]
  {
    DefaultIdOk();
    assert IdsOk([DEFAULT_ID]);
    NormalizeGroupIdsFixes([DEFAULT_ID]);
  }
}
