/** What the normaliser makes of a layout, whatever is wrong with it. */
module TerminalNormal {
  import opened Text
  import opened Sequences
  import opened TerminalLayout

  /** The texts name `x`, but for white space around it. */
  ghost predicate NamesId(ids: seq<string>, x: string) {
    x != [] && exists y :: y in ids && Trim(y) == x
  }

  lemma GroupIdsAre(ids: seq<string>, x: string)
    ensures x in NormalizeGroupIds(ids) <==> NamesId(ids, x)
  {
    hide Trim, Dedup, TrimmedNonEmpty;
    TrimmedNonEmptySpec(ids);
    DedupMembers(TrimmedNonEmpty(ids));
  }

  /** The first group that names `x`; the number of groups when there is none. */
  ghost function Home(groups: seq<Group>, x: string): (i: nat)
    ensures i <= |groups| && (i < |groups| ==> NamesId(groups[i].terminalIds, x))
    ensures forall j | 0 <= j < i :: !NamesId(groups[j].terminalIds, x)
  {
    if groups == [] || NamesId(groups[0].terminalIds, x) then 0 else 1 + Home(groups[1..], x)
  }

  ghost predicate Together(groups: seq<Group>, x: string, y: string) {
    exists g :: g in groups && x in g.terminalIds && y in g.terminalIds
  }

  // Taking over the groups

  /** `done` holds the valid ids whose home is among the first `k` groups, those of one home together. */
  ghost predicate Placed(done: seq<Group>, all: seq<Group>, k: nat, valid: seq<string>) {
    && (forall x :: x in MemberIds(done) <==> x in valid && Home(all, x) < k)
    && (forall x, y :: Together(done, x, y) <==> x in valid && y in valid && Home(all, x) == Home(all, y) < k)
  }

  lemma NothingPlaced(all: seq<Group>, valid: seq<string>)
    ensures Placed([], all, 0, valid)
  {}

  lemma TakenIds(done: seq<Group>, all: seq<Group>, k: nat, valid: seq<string>, x: string)
    requires k < |all| && Placed(done, all, k, valid)
    ensures x in Unassigned(NormalizeGroupIds(all[k].terminalIds), valid, MemberIds(done)) <==> x in valid && Home(all, x) == k
  {
    hide NormalizeGroupIds, Unassigned, Together, MemberIds;
    GroupIdsAre(all[k].terminalIds, x);
    UnassignedSpec(NormalizeGroupIds(all[k].terminalIds), valid, MemberIds(done));
    assert NamesId(all[k].terminalIds, x) ==> Home(all, x) <= k;
  }

  lemma TakePlaces(done: seq<Group>, all: seq<Group>, k: nat, valid: seq<string>)
    requires k < |all| && Placed(done, all, k, valid)
    ensures Placed(TakeGroup(done, all[k], valid), all, k + 1, valid)
  {
    hide NormalizeGroupIds, Unassigned, UniqueGroupId, Trim, FallbackGroupId, Home, Placed;
    var ids := Unassigned(NormalizeGroupIds(all[k].terminalIds), valid, MemberIds(done));
    forall x ensures x in ids <==> x in valid && Home(all, x) == k { TakenIds(done, all, k, valid, x); }
    var r := TakeGroup(done, all[k], valid);
    if ids == [] {
      NoneMore(done, all, k, valid);
    } else {
      assert r[..|done|] == done && |r| == |done| + 1 && r[|done|].terminalIds == ids;
      OneMore(done, r[|done|], all, k, valid);
    }
  }

  lemma NoneMore(done: seq<Group>, all: seq<Group>, k: nat, valid: seq<string>)
    requires Placed(done, all, k, valid) && forall x | x in valid :: Home(all, x) != k
    ensures Placed(done, all, k + 1, valid)
  {
    hide Home, Together, MemberIds;
  }

  lemma OneMore(done: seq<Group>, g: Group, all: seq<Group>, k: nat, valid: seq<string>)
    requires Placed(done, all, k, valid) && forall x :: x in g.terminalIds <==> x in valid && Home(all, x) == k
    ensures Placed(done + [g], all, k + 1, valid)
  {
    hide Home;
    var r := done + [g];
    forall x ensures x in MemberIds(r) <==> x in MemberIds(done) || x in g.terminalIds { MembersPlus(done, g, x); }
    forall x, y ensures Together(r, x, y) <==> Together(done, x, y) || (x in g.terminalIds && y in g.terminalIds) {
      TogetherPlus(done, g, x, y);
    }
  }

  lemma MembersPlus(groups: seq<Group>, g: Group, x: string)
    ensures x in MemberIds(groups + [g]) <==> x in MemberIds(groups) || x in g.terminalIds
  {
    assert g in groups + [g];
  }

  lemma TogetherPlus(groups: seq<Group>, g: Group, x: string, y: string)
    ensures Together(groups + [g], x, y) <==> Together(groups, x, y) || (x in g.terminalIds && y in g.terminalIds)
  {
    assert g in groups + [g];
    if Together(groups, x, y) {
      var h :| h in groups && x in h.terminalIds && y in h.terminalIds;
      assert h in groups + [g];
    }
  }

  lemma {:induction false} AllPlaced(done: seq<Group>, all: seq<Group>, k: nat, valid: seq<string>)
    requires k <= |all| && Placed(done, all, k, valid)
    ensures Placed(TakeGroups(done, all[k..], valid), all, |all|, valid)
    decreases |all| - k
  {
    hide TakeGroup, Placed;
    if k < |all| {
      TakePlaces(done, all, k, valid);
      assert all[k..][0] == all[k] && all[k..][1..] == all[k + 1..];
      AllPlaced(TakeGroup(done, all[k], valid), all, k + 1, valid);
    }
  }

  // What is left over

  lemma {:induction false} LeftAlone(done: seq<Group>, ids: seq<string>, claimed: set<string>, x: string, y: string)
    ensures Together(AddLeftovers(done, ids, claimed), x, y) <==>
            Together(done, x, y) || (x == y && x in ids && x !in claimed)
    decreases |ids|
  {
    hide UniqueGroupId, FallbackGroupId, Together;
    if ids != [] {
      if ids[0] in claimed {
        LeftAlone(done, ids[1..], claimed, x, y);
      } else {
        var g := Group(UniqueGroupId(FallbackGroupId(ids[0]), GroupIds(done)), [ids[0]]);
        TogetherPlus(done, g, x, y);
        LeftAlone(done + [g], ids[1..], claimed, x, y);
      }
    }
  }

  /** Two terminals end up in one group exactly when they are the same, or the same group of the input
      is the first to name either. */
  lemma SharedExactlyWhen(s: Layout, x: string, y: string)
    requires x in NormalizeTerminalIds(s.terminalIds) && y in NormalizeTerminalIds(s.terminalIds)
    ensures Together(Normalize(s).terminalGroups, x, y) <==>
            x == y || (Home(s.terminalGroups, x) == Home(s.terminalGroups, y) < |s.terminalGroups|)
  {
    hide NormalizeTerminalIds, TakeGroups, AddLeftovers, Home, Together;
    var ids := NormalizeTerminalIds(s.terminalIds);
    var taken := TakeGroups([], s.terminalGroups, ids);
    var all := AddLeftovers(taken, ids, MemberIds(taken));
    NothingPlaced(s.terminalGroups, ids);
    assert s.terminalGroups[0..] == s.terminalGroups;
    AllPlaced([], s.terminalGroups, 0, ids);
    LeftAlone(taken, ids, MemberIds(taken), x, y);
    LeftAlone(taken, ids, MemberIds(taken), x, x);
    NoGroupNoneTogether(x);
    assert all != [];
  }

  lemma NoGroupNoneTogether(x: string)
    ensures !Together([], x, x)
  {}

  // The other parts

  /** Terminals and running terminals are those named, once blanks are trimmed; where none is left there is
      the default one. A terminal runs only if it is listed. The active terminal stays if it is listed, or
      is the first; the active group stays if there is such a group, or is one of the active terminal. The
      panel keeps whether it is shown, and its height if that is positive. */
  lemma NormalizedParts(s: Layout, x: string)
    ensures var r, some := Normalize(s), exists y :: NamesId(s.terminalIds, y);
      && r.terminalIds != [] && NoDuplicates(r.terminalIds)
      && (x in r.terminalIds <==> if some then NamesId(s.terminalIds, x) else x == "default")
      && (x in r.runningTerminalIds <==> x in r.terminalIds && NamesId(s.runningTerminalIds, x))
      && r.activeTerminalId == (if s.activeTerminalId in r.terminalIds then s.activeTerminalId else r.terminalIds[0])
      && (if HasGroup(r.terminalGroups, s.activeTerminalGroupId) then r.activeTerminalGroupId == s.activeTerminalGroupId
          else exists g :: g in r.terminalGroups && g.id == r.activeTerminalGroupId && r.activeTerminalId in g.terminalIds)
      && r.terminalOpen == s.terminalOpen
      && r.terminalHeight == (if s.terminalHeight.Finite? && s.terminalHeight.value > 0.0 then s.terminalHeight else Finite(280.0))
  {
    hide NormalizeRunning, NormalizeGroups, Trim, NormalizeGroupIds, NamesId, ActiveGroup, HasGroup, NoDuplicates, GroupsOk, IdsOk,
      MemberIds;
    var r := Normalize(s);
    var ids := NormalizeGroupIds(s.terminalIds);
    forall y ensures y in ids <==> NamesId(s.terminalIds, y) { GroupIdsAre(s.terminalIds, y); }
    if ids != [] { assert ids[0] in ids; }
    DistinctIds(s.terminalIds);
    NormalizedIdsOk(s.terminalIds);
    RunningAre(s.runningTerminalIds, r.terminalIds, x);
    NormalizedGroupsOk(s.terminalGroups, r.terminalIds);
    ActiveGroupIs(r.terminalGroups, s.activeTerminalGroupId, r.activeTerminalId);
  }

  lemma DistinctIds(ids: seq<string>)
    ensures NoDuplicates(NormalizeTerminalIds(ids))
  {
    hide IsId, NormalizeTerminalIds;
    NormalizedIdsOk(ids);
  }

  lemma RunningAre(running: seq<string>, valid: seq<string>, x: string)
    requires IdsOk(valid)
    ensures x in NormalizeRunning(running, valid) <==> x in valid && NamesId(running, x)
  {
    hide Trim, Dedup, TrimmedValid, NoDuplicates, Trimmed;
    TrimmedValidSpec(Dedup(running), valid);
    DedupMembers(running);
    if x in valid { assert IsId(x); }
  }

  lemma ActiveGroupIs(groups: seq<Group>, wanted: string, active: string)
    requires groups != [] && active in MemberIds(groups)
    ensures var id := ActiveGroup(groups, wanted, active);
      if HasGroup(groups, wanted) then id == wanted
      else exists g :: g in groups && g.id == id && active in g.terminalIds
  {
    var g :| g in groups && active in g.terminalIds;
    var j :| 0 <= j < |groups| && groups[j] == g;
    var i := GroupIndexOf(groups, active);
    assert i <= j;
    assert groups[i] in groups && active in groups[i].terminalIds;
  }
}
