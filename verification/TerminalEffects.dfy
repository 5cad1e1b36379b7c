/** What each terminal transition changes in a coherent layout, and that it changes nothing else. */
module TerminalEffects {
  import opened Text
  import opened Sequences
  import opened TerminalLayout
  import opened TerminalTransitions
  import opened TerminalLaws

  /** A fresh terminal comes last, active and shown, in a group of its own behind the others. */
  lemma NewShows(s: Layout, t: string)
    requires Coherent(s) && IsId(t) && t !in s.terminalIds
    ensures var r := Upsert(s, t, New);
            && r == s.(terminalOpen := true, terminalIds := s.terminalIds + [t], activeTerminalId := t,
                       terminalGroups := s.terminalGroups + [Group(r.activeTerminalGroupId, [t])],
                       activeTerminalGroupId := r.activeTerminalGroupId)
            && forall g | g in s.terminalGroups :: g.id != r.activeTerminalGroupId
  {
    hide Coherent, Upsert, UniqueGroupId, GroupIds, DropTerminal, FallbackGroupId, WellFormed;
    NewKeepsCoherence(s, t);
    FreshIsAbsent(s, t);
    DropAbsent(s.terminalGroups, t);
    var r := WithNewGroup(s, t);
    NewGroupDiffers(r, s.terminalGroups, Group(r.activeTerminalGroupId, [t]));
  }

  lemma NewGroupDiffers(r: Layout, groups: seq<Group>, g: Group)
    requires Coherent(r) && r.terminalGroups == groups + [g]
    ensures forall h | h in groups :: h.id != g.id
  {
    hide GroupOk, IdsOk, NoDuplicates;
    GroupIdsDiffer(r.terminalGroups);
    var n := |groups|;
    forall h | h in groups ensures h.id != g.id {
      var i :| 0 <= i < n && groups[i] == h;
      assert r.terminalGroups[i] == h && r.terminalGroups[n] == g;
    }
  }

  /** A fresh terminal split in with room joins the active group, right behind the terminal that was
      active; the other groups and their order stay. */
  lemma SplitShows(s: Layout, t: string) returns (i: nat, a: seq<string>, b: seq<string>)
    requires Coherent(s) && IsId(t) && t !in s.terminalIds && |ActiveMembers(s)| < MAX_PER_GROUP
    ensures i < |s.terminalGroups| && s.terminalGroups[i].id == s.activeTerminalGroupId
    ensures s.terminalGroups[i].terminalIds == a + [s.activeTerminalId] + b
    ensures Upsert(s, t, Split) ==
      s.(terminalOpen := true, terminalIds := s.terminalIds + [t], activeTerminalId := t,
         terminalGroups := s.terminalGroups[i := Group(s.activeTerminalGroupId, a + [s.activeTerminalId, t] + b)])
  {
    hide Coherent, Upsert, UniqueGroupId, GroupIds, DropTerminal, FallbackGroupId, Normalize, InsertAfter, IsId;
    FreshIsAbsent(s, t);
    DropAbsent(s.terminalGroups, t);
    i := ActiveGroupAt(s);
    var members := s.terminalGroups[i].terminalIds;
    assert Destination(s.terminalGroups, s) == (s.terminalGroups, i);
    FreshInGroup(s, i, t);
    SplitIs(s, t);
    SplitKeepsCoherence(s, t);
    a, b := BehindActive(members, s.activeTerminalId, t);
  }

  lemma FreshInGroup(s: Layout, i: nat, t: string)
    requires (forall g | g in s.terminalGroups :: t !in g.terminalIds && g.terminalIds != []) && i < |s.terminalGroups|
    ensures t !in s.terminalGroups[i].terminalIds
  {
    assert s.terminalGroups[i] in s.terminalGroups;
  }

  lemma BehindActive(members: seq<string>, active: string, t: string) returns (a: seq<string>, b: seq<string>)
    requires active in members
    ensures members == a + [active] + b && InsertAfter(members, active, t) == a + [active, t] + b
  {
    hide FirstIndex;
    FirstIndexIs(members, active);
    var k := FirstIndex(members, active);
    a, b := members[..k], members[k + 1..];
    assert members[..k + 1] == a + [active];
    assert a + [active] + [t] == a + [active, t];
  }

  /** Closing the active terminal activates the one listed after it, or the one before it at the end;
      closing another leaves the active one. Whether the panel is shown, and its height, stay. */
  lemma CloseShows(s: Layout, t: string, a: seq<string>, b: seq<string>)
    requires Coherent(s) && s.terminalIds == a + [t] + b && a + b != []
    ensures var r := Close(s, t);
            && r.terminalIds == a + b && r.terminalOpen == s.terminalOpen && r.terminalHeight == s.terminalHeight
            && r.activeTerminalId == (if s.activeTerminalId != t then s.activeTerminalId
                                      else if b != [] then b[0] else a[|a| - 1])
  {
    hide Close, DropTerminal, GroupsOk, MemberIds, NoDuplicates, Without, IsId, FirstIndex;
    Neighbours(s, t, a, b);
    CloseParts(s, t);
  }

  lemma Neighbours(s: Layout, t: string, a: seq<string>, b: seq<string>)
    requires WellFormed(s) && s.terminalIds == a + [t] + b
    ensures t in s.terminalIds && Without(s.terminalIds, t) == a + b && FirstIndex(s.terminalIds, t) == |a|
  {
    hide GroupsOk, MemberIds, Without, FirstIndex;
    var ids := s.terminalIds;
    assert ids[|a|] == t;
    assert forall i | 0 <= i < |a| :: ids[i] == a[i];
    assert forall i | 0 <= i < |b| :: ids[|a| + 1 + i] == b[i];
    assert t !in a && t !in b;
    WithoutSpliced(a, b, t);
    FirstIndexIs(ids, t);
  }

  /** Activating a listed terminal, or noting that it runs or runs no longer, changes just that; the
      height takes positive numbers only. */
  lemma SettersShow(s: Layout, t: string, running: bool, open: bool, height: Number)
    requires Coherent(s)
    ensures SetActive(s, t) == if t !in s.terminalIds then s
      else s.(activeTerminalId := t, activeTerminalGroupId := SetActive(s, t).activeTerminalGroupId)
    ensures t in s.terminalIds ==> Holds(s.terminalGroups, SetActive(s, t).activeTerminalGroupId, t)
    ensures SetActivity(s, t, running) == s.(runningTerminalIds := SetActivity(s, t, running).runningTerminalIds)
    ensures t in s.terminalIds ==> (t in SetActivity(s, t, running).runningTerminalIds <==> running)
    ensures t !in s.terminalIds ==> SetActivity(s, t, running) == s
    ensures Without(SetActivity(s, t, running).runningTerminalIds, t) == Without(s.runningTerminalIds, t)
    ensures SetOpen(s, open) == s.(terminalOpen := open)
    ensures SetHeight(s, height) ==
      if height.Finite? && height.value > 0.0 then s.(terminalHeight := height) else s
  {
    hide Normalize, IdsOk, GroupsOk, NoDuplicates, Without;
    CoherentIsNormal(s);
    SetActiveKeepsCoherence(s, t);
    if t in s.terminalIds { GroupOfMember(s.terminalGroups, t); }
    WithoutMember(s.runningTerminalIds, t, t);
    RunningWithout(s.runningTerminalIds, t);
  }

  lemma RunningWithout(running: seq<string>, t: string)
    ensures Without(Without(running, t), t) == Without(running, t)
    ensures t !in running ==> Without(running + [t], t) == Without(running, t)
  {
    hide Without;
    WithoutMember(running, t, t);
    WithoutAbsent(Without(running, t), t);
    WithoutAppend(running, [t], t);
    WithoutOnly(t);
    assert Without(running, t) + [] == Without(running, t);
  }

  /** Ensuring a terminal lists it; unless told not to it is active afterwards, and the panel is shown
      when asked for. A started terminal is listed, active and shown. */
  lemma EnsureShows(s: Layout, t: string, open: Option<bool>, active: Option<bool>)
    requires Coherent(s) && IsId(t)
    ensures var r := Ensure(s, t, open, active);
            && t in r.terminalIds && (forall x | x in s.terminalIds :: x in r.terminalIds)
            && r.activeTerminalId == (if active == Some(false) then s.activeTerminalId else t)
            && r.terminalOpen == (open == Some(true) || s.terminalOpen || t !in s.terminalIds)
            && r.runningTerminalIds == s.runningTerminalIds
    ensures var r := Start(s, t);
            t in r.terminalIds && r.activeTerminalId == t && r.terminalOpen && r.runningTerminalIds == s.runningTerminalIds
  {
    hide Normalize, Coherent, WithNewGroup, Trim, SetActive, SetOpen, Upsert, IsId;
    UsableId(t);
    CoherentIsNormal(s);
    var s1 := if t !in s.terminalIds then Upsert(s, t, New) else s;
    if t !in s.terminalIds { NewShows(s, t); }
    UpsertKeepsCoherence(s, t, New);
    assert t in s1.terminalIds && s1.terminalOpen == (s.terminalOpen || t !in s.terminalIds);
    SettersShow(s1, t, true, true, NotFinite);
    SetActiveKeepsCoherence(s1, t);
    SettersShow(SetActive(s1, t), t, true, true, NotFinite);
    SimpleSettersKeepCoherence(SetActive(s1, t), true, NotFinite);
    CoherentIsNormal(SetActive(s1, t));
    CoherentIsNormal(SetOpen(SetActive(s1, t), true));
    if active == Some(false) {
      var s2 := s1.(activeTerminalId := s.activeTerminalId, activeTerminalGroupId := s.activeTerminalGroupId);
      ActiveRestored(s, s1, s2, t);
      SettersShow(s2, t, true, true, NotFinite);
      SimpleSettersKeepCoherence(s2, true, NotFinite);
      CoherentIsNormal(s2);
      CoherentIsNormal(SetOpen(s2, true));
    }
  }

  lemma ActiveRestored(s: Layout, s1: Layout, s2: Layout, t: string)
    requires Coherent(s) && IsId(t) && s1 == (if t !in s.terminalIds then Upsert(s, t, New) else s)
    requires s2 == s1.(activeTerminalId := s.activeTerminalId, activeTerminalGroupId := s.activeTerminalGroupId)
    ensures Coherent(s2)
  {
    hide Coherent, WithNewGroup, Upsert, IsId;
    if t !in s.terminalIds {
      NewKeepsCoherence(s, t);
      ReactivateKeepsCoherence(s, t);
    }
  }

  lemma UsableId(t: string)
    requires IsId(t)
    ensures Usable(t)
  {}

  // The group cap, broken

  lemma GroupOfTerminal(groups: seq<Group>, i: nat, j: nat, t: string)
    requires GroupsOk(groups) && i < |groups| && j < |groups|
    requires t in groups[i].terminalIds && t in groups[j].terminalIds
    ensures i == j
  {
    hide GroupOk;
    assert i < j ==> Apart(groups[i], groups[j]);
    assert j < i ==> Apart(groups[j], groups[i]);
  }

  /** A terminal created beside the active group, and the terminal that was active activated again:
      the same group is active, and the new terminal is not in it. */
  lemma CreatedBeside(s: Layout, t: string)
    requires Coherent(s) && IsId(t) && t !in s.terminalIds
    ensures var u := SetActive(Upsert(s, t, New), s.activeTerminalId);
            && Coherent(u) && u.terminalGroups[..|u.terminalGroups| - 1] == s.terminalGroups
            && t in u.terminalIds && ActiveMembers(u) == ActiveMembers(s) && t !in ActiveMembers(s)
  {
    hide Coherent, Upsert, SetActive, Usable, IsId;
    var r := Upsert(s, t, New);
    var u := SetActive(r, s.activeTerminalId);
    UsableId(t);
    UpsertKeepsCoherence(s, t, New);
    NewShows(s, t);
    SetActiveKeepsCoherence(r, s.activeTerminalId);
    SetActiveKeepsGroups(r, s.activeTerminalId);
    ActiveIsListed(s);
    SettersShow(r, s.activeTerminalId, true, true, NotFinite);
    var i := ActiveGroupAt(s);
    var j := ActiveGroupAt(u);
    GroupsAreOk(u);
    assert u.terminalGroups[i] == s.terminalGroups[i];
    GroupOfTerminal(u.terminalGroups, i, j, s.activeTerminalId);
    MembersAreListed(s);
  }

  lemma ActiveIsListed(s: Layout)
    requires Coherent(s)
    ensures s.activeTerminalId in s.terminalIds
  {}

  lemma GroupsAreOk(s: Layout)
    requires Coherent(s)
    ensures GroupsOk(s.terminalGroups)
  {}

  /** Whenever a full group is active, three steps break the cap: create a terminal, activate the one
      that was active, and split the new one in. */
  lemma FullGroupOverflows(s: Layout, t: string)
    requires Coherent(s) && WithinCap(s) && |ActiveMembers(s)| == MAX_PER_GROUP && IsId(t) && t !in s.terminalIds
    ensures !WithinCap(Run(s, [Created(t), Activated(s.activeTerminalId), SplitInto(t)]))
  {
    hide Coherent, WithinCap, Upsert, SetActive, ActiveMembers, Usable, IsId;
    var r := Upsert(s, t, New);
    var u := SetActive(r, s.activeTerminalId);
    UsableId(t);
    NewKeepsCap(s, t);
    UpsertKeepsCoherence(s, t, New);
    SetActiveKeepsGroups(r, s.activeTerminalId);
    CapOfGroups(r, u);
    CreatedBeside(s, t);
    SplitKeepsCap(u, t);
    var actions := [Created(t), Activated(s.activeTerminalId), SplitInto(t)];
    assert actions[1..] == [Activated(s.activeTerminalId), SplitInto(t)];
    assert actions[1..][1..] == [SplitInto(t)];
    assert Step(s, actions[0]) == r && Step(r, actions[1]) == u;
    assert Run(u, [SplitInto(t)]) == Upsert(u, t, Split);
  }

  lemma CapOfGroups(s: Layout, r: Layout)
    requires s.terminalGroups == r.terminalGroups
    ensures WithinCap(s) <==> WithinCap(r)
  {}

  /** Splitting in a fresh terminal with room makes the active group one longer. */
  lemma SplitFills(s: Layout, t: string)
    requires Coherent(s) && WithinCap(s) && IsId(t) && t !in s.terminalIds && |ActiveMembers(s)| < MAX_PER_GROUP
    ensures var r := Upsert(s, t, Split);
            && Coherent(r) && WithinCap(r) && |ActiveMembers(r)| == |ActiveMembers(s)| + 1
            && r.terminalIds == s.terminalIds + [t]
  {
    hide Coherent, WithinCap, Upsert, Usable, IsId;
    UsableId(t);
    UpsertKeepsCoherence(s, t, Split);
    FreshSplitKeepsCap(s, t);
    var k := ActiveGroupAt(s);
    var i, a, b := SplitShows(s, t);
    var r := Upsert(s, t, Split);
    GroupsAreOk(s);
    GroupsAreOk(r);
    var j := ActiveGroupAt(r);
    assert r.terminalGroups[i].id == r.activeTerminalGroupId && t in r.terminalGroups[i].terminalIds;
    SameIndex(s.terminalGroups, i, k);
    SameIndex(r.terminalGroups, i, j);
  }

  lemma SameIndex(groups: seq<Group>, i: nat, j: nat)
    requires GroupsOk(groups) && i < |groups| && j < |groups| && groups[i].id == groups[j].id
    ensures i == j
  {
    hide GroupOk;
    GroupIdsDiffer(groups);
  }

  /** The cap is broken from the default layout: fill its group, create a fifth terminal, activate
      the first group again, and split the fifth one in. */
  lemma FifthIsMovedIn()
    ensures var filled := Run(DEFAULT_LAYOUT, [SplitInto("2"), SplitInto("3"), SplitInto("4")]);
            !WithinCap(Run(filled, [Created("5"), Activated(filled.activeTerminalId), SplitInto("5")]))
  {
    hide Coherent, WithinCap, Upsert, ActiveMembers;
    DefaultIsCoherent();
    DefaultWithinCap();
    DefaultMembers();
    var s, actions := DEFAULT_LAYOUT, [SplitInto("2"), SplitInto("3"), SplitInto("4")];
    SplitFills(s, "2");
    var s2 := Upsert(s, "2", Split);
    SplitFills(s2, "3");
    var s3 := Upsert(s2, "3", Split);
    SplitFills(s3, "4");
    var s4 := Upsert(s3, "4", Split);
    assert actions[1..] == [SplitInto("3"), SplitInto("4")] && actions[1..][1..] == [SplitInto("4")];
    assert Run(s3, [SplitInto("4")]) == s4;
    FullGroupOverflows(s4, "5");
  }

  lemma DefaultMembers()
    ensures ActiveMembers(DEFAULT_LAYOUT) == [DEFAULT_ID]
  {}
}
