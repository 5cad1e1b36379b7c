/** Laws that relate several terminal transitions: closing undoes creating, and the group cap. */
module TerminalLaws {
  import opened Text
  import opened Sequences
  import opened TerminalLayout
  import opened TerminalTransitions

  // Closing undoes creating

  ghost predicate SameTerminals(a: Layout, b: Layout) {
    a.terminalIds == b.terminalIds && a.terminalGroups == b.terminalGroups && a.runningTerminalIds == b.runningTerminalIds
  }

  /** What closing does to a coherent layout that has another terminal. */
  lemma CloseParts(s: Layout, t: string)
    requires Coherent(s) && t in s.terminalIds && Without(s.terminalIds, t) != []
    ensures var r := Close(s, t);
      && r.terminalIds == Without(s.terminalIds, t)
      && r.terminalGroups == DropTerminal(s.terminalGroups, t)
      && r.runningTerminalIds == Without(s.runningTerminalIds, t)
      && r.terminalOpen == s.terminalOpen && r.terminalHeight == s.terminalHeight
      && r.activeTerminalId == ActiveAfterClose(s, t)
  {
    hide Coherent, Close, DropTerminal, Without, ActiveAfterClose;
    CloseIs(s, t);
  }

  lemma CloseAppended(s: Layout, r: Layout, t: string)
    requires Coherent(s) && Coherent(r) && t !in s.terminalIds
    requires r.terminalIds == s.terminalIds + [t] && r.runningTerminalIds == s.runningTerminalIds
    requires DropTerminal(r.terminalGroups, t) == s.terminalGroups
    ensures SameTerminals(Close(r, t), s)
  {
    hide Normalize, DropTerminal, GroupsOk, MemberIds, NoDuplicates, IsId, Close, Holds;
    assert r.terminalIds == s.terminalIds + [t] + [];
    WithoutSpliced(s.terminalIds, [], t);
    assert s.terminalIds + [] == s.terminalIds;
    WithoutAbsent(s.runningTerminalIds, t);
    CloseParts(r, t);
  }

  /** Creating a fresh terminal and closing it restores the ids, groups and running terminals. */
  lemma CloseUndoesNew(s: Layout, t: string)
    requires Coherent(s) && IsId(t) && t !in s.terminalIds
    ensures SameTerminals(Close(Upsert(s, t, New), t), s)
  {
    hide Coherent, Close, Upsert, UniqueGroupId, GroupIds, DropTerminal, Without;
    NewKeepsCoherence(s, t);
    FreshIsAbsent(s, t);
    DropAbsent(s.terminalGroups, t);
    var r := WithNewGroup(s, t);
    var g := Group(r.activeTerminalGroupId, [t]);
    DropConcat(s.terminalGroups, [g], t);
    DropOne(g, t);
    WithoutOnly(t);
    assert s.terminalGroups + [] == s.terminalGroups;
    CloseAppended(s, r, t);
  }

  lemma DropFilled(groups: seq<Group>, d: nat, filled: seq<string>, t: string)
    requires d < |groups| && (forall g | g in groups :: t !in g.terminalIds && g.terminalIds != [])
    requires Without(filled, t) == groups[d].terminalIds
    ensures DropTerminal(groups[d := groups[d].(terminalIds := filled)], t) == groups
  {
    hide Without, DropTerminal;
    var a, b := groups[..d], groups[d + 1..];
    var g := groups[d].(terminalIds := filled);
    assert groups[d := g] == a + [g] + b && groups == a + [groups[d]] + b;
    assert groups[d] in groups;
    DropAround(a, g, b, t);
  }

  /** Splitting in a fresh terminal, when there is room, and closing it restores them too. */
  lemma CloseUndoesSplit(s: Layout, t: string)
    requires Coherent(s) && IsId(t) && t !in s.terminalIds && !Full(s, t)
    ensures SameTerminals(Close(Upsert(s, t, Split), t), s)
  {
    hide Coherent, Close, Upsert, DropTerminal, Destination, InsertAfter, UniqueGroupId, GroupIds;
    SplitIs(s, t);
    SplitKeepsCoherence(s, t);
    FreshIsAbsent(s, t);
    DropAbsent(s.terminalGroups, t);
    DestinationSpec(s, t);
    ActiveIsListed(s);
    var (all, d) := Destination(s.terminalGroups, s);
    InsertAfterSpec(all[d].terminalIds, s.activeTerminalId, t);
    DropFilled(all, d, InsertAfter(all[d].terminalIds, s.activeTerminalId, t), t);
    CloseAppended(s, WithSplit(s, t), t);
  }

  lemma ActiveIsListed(s: Layout)
    requires Coherent(s)
    ensures s.activeTerminalId in s.terminalIds
  {}

  // The cap on splits

  ghost predicate WithinCap(s: Layout) {
    CapOk(s.terminalGroups)
  }

  /** No group holds more than four terminals. */
  ghost predicate CapOk(groups: seq<Group>) {
    forall g | g in groups :: |g.terminalIds| <= 4
  }

  function ActiveMembers(s: Layout): seq<string> {
    var i := IndexOfGroup(s.terminalGroups, s.activeTerminalGroupId);
    if i < |s.terminalGroups| then s.terminalGroups[i].terminalIds else []
  }

  /** The split moves a terminal that already exists into a full group. */
  predicate Overfills(s: Layout, t: string) {
    t in s.terminalIds && t !in ActiveMembers(s) && |ActiveMembers(s)| >= MAX_PER_GROUP
  }

  lemma DropWithinCap(groups: seq<Group>, t: string)
    requires CapOk(groups)
    ensures CapOk(DropTerminal(groups, t))
  {
    hide Without, DropTerminal;
    DropSources(groups, t);
    forall h | h in DropTerminal(groups, t) ensures |h.terminalIds| <= MAX_PER_GROUP {
      var g :| g in groups && LeftOf(h, g, t);
      WithoutMembers(g.terminalIds, t);
    }
  }

  lemma GroupIdsDiffer(groups: seq<Group>)
    requires GroupsOk(groups)
    ensures forall i, j | 0 <= i < j < |groups| :: groups[i].id != groups[j].id
  {
    hide GroupOk;
    assert forall i, j | 0 <= i < j < |groups| :: Apart(groups[i], groups[j]);
  }

  lemma ActiveGroupAt(s: Layout) returns (i: nat)
    requires Coherent(s)
    ensures i == IndexOfGroup(s.terminalGroups, s.activeTerminalGroupId) < |s.terminalGroups|
    ensures ActiveMembers(s) == s.terminalGroups[i].terminalIds && s.activeTerminalId in ActiveMembers(s)
  {
    hide IdsOk, NoDuplicates, GroupOk;
    i := IndexOfGroup(s.terminalGroups, s.activeTerminalGroupId);
    var g :| g in s.terminalGroups && g.id == s.activeTerminalGroupId && s.activeTerminalId in g.terminalIds;
    var j :| 0 <= j < |s.terminalGroups| && s.terminalGroups[j] == g;
    GroupIdsDiffer(s.terminalGroups);
  }

  /** Where a split goes: into what is left of the active group, or into a group of its own. */
  lemma SplitTarget(s: Layout, t: string)
    requires Coherent(s)
    ensures var (all, d) := Destination(DropTerminal(s.terminalGroups, t), s);
      if t in ActiveMembers(s) && Without(ActiveMembers(s), t) == [] then all[d].terminalIds == [t]
      else all == DropTerminal(s.terminalGroups, t) && all[d].terminalIds == Without(ActiveMembers(s), t)
  {
    hide DropTerminal, UniqueGroupId, GroupIds, FallbackGroupId, IdsOk, NoDuplicates, Without, GroupOk;
    var i := ActiveGroupAt(s);
    var g := s.terminalGroups[i];
    var groups := DropTerminal(s.terminalGroups, t);
    DestinationSpec(s, t);
    DropSources(s.terminalGroups, t);
    DropOk(s.terminalGroups, t);
    var (all, d) := Destination(groups, s);
    WithoutMember(g.terminalIds, t, s.activeTerminalId);
    if all == groups {
      assert all[d] in groups;
      var h :| h in s.terminalGroups && LeftOf(all[d], h, t);
      SameGroup(s.terminalGroups, g, h);
    } else if Without(g.terminalIds, t) != [] {
      var left := g.(terminalIds := Without(g.terminalIds, t));
      assert left in groups && left.id == s.activeTerminalGroupId;
      NotBeyond(groups, left);
    }
  }

  lemma NotBeyond(groups: seq<Group>, g: Group)
    requires g in groups
    ensures IndexOfGroup(groups, g.id) < |groups|
  {}

  lemma SameGroup(groups: seq<Group>, g: Group, h: Group)
    requires GroupsOk(groups) && g in groups && h in groups && g.id == h.id
    ensures g == h
  {
    hide GroupOk;
    var i :| 0 <= i < |groups| && groups[i] == g;
    var j :| 0 <= j < |groups| && groups[j] == h;
    GroupIdsDiffer(groups);
  }

  lemma FilledWithinCap(groups: seq<Group>, d: nat, filled: seq<string>)
    requires d < |groups| && CapOk(groups)
    ensures CapOk(groups[d := groups[d].(terminalIds := filled)]) <==> |filled| <= MAX_PER_GROUP
  {
    var r := groups[d := groups[d].(terminalIds := filled)];
    assert r[d] in r;
    forall g | g in r ensures g == r[d] || g in groups {
      var i :| 0 <= i < |r| && r[i] == g;
    }
  }

  /** How many terminals the destination of a split ends up with. */
  lemma SplitSize(s: Layout, t: string)
    requires Coherent(s)
    ensures var (all, d) := Destination(DropTerminal(s.terminalGroups, t), s);
      var filled := if t in all[d].terminalIds then all[d].terminalIds else InsertAfter(all[d].terminalIds, s.activeTerminalId, t);
      |filled| == if t in ActiveMembers(s) then |Without(ActiveMembers(s), t)| + 1 else |ActiveMembers(s)| + 1
  {
    hide DropTerminal, Destination, InsertAfter, Without;
    SplitTarget(s, t);
    var (all, d) := Destination(DropTerminal(s.terminalGroups, t), s);
    var members := ActiveMembers(s);
    if t !in members {
      WithoutAbsent(members, t);
    } else {
      WithoutMember(members, t, t);
    }
    if t !in all[d].terminalIds {
      InsertAfterSpec(all[d].terminalIds, s.activeTerminalId, t);
    }
  }

  lemma DestinationWithinCap(s: Layout, t: string)
    requires Coherent(s) && WithinCap(s)
    ensures CapOk(Destination(DropTerminal(s.terminalGroups, t), s).0)
  {
    hide DropTerminal, UniqueGroupId, GroupIds, FallbackGroupId, Coherent;
    DropWithinCap(s.terminalGroups, t);
  }

  /** A split keeps the cap exactly when it does not move an existing terminal into a full group. */
  lemma SplitKeepsCap(s: Layout, t: string)
    requires Coherent(s) && WithinCap(s) && IsId(t)
    ensures WithinCap(Upsert(s, t, Split)) <==> !Overfills(s, t)
  {
    hide Upsert, Normalize, DropTerminal, Destination, InsertAfter, Without, CapOk, ActiveMembers;
    SplitIs(s, t);
    SplitKeepsCoherence(s, t);
    SplitTarget(s, t);
    SplitSize(s, t);
    DestinationWithinCap(s, t);
    ActiveWithinCap(s);
    var (all, d) := Destination(DropTerminal(s.terminalGroups, t), s);
    var filled := if t in all[d].terminalIds then all[d].terminalIds else InsertAfter(all[d].terminalIds, s.activeTerminalId, t);
    FilledWithinCap(all, d, filled);
    WithoutMembers(ActiveMembers(s), t);
    if t !in ActiveMembers(s) { WithoutAbsent(ActiveMembers(s), t); }
    MembersAreListed(s);
  }

  lemma ActiveWithinCap(s: Layout)
    requires Coherent(s) && WithinCap(s)
    ensures |ActiveMembers(s)| <= MAX_PER_GROUP
  {
    hide Coherent;
    var i := ActiveGroupAt(s);
    assert s.terminalGroups[i] in s.terminalGroups;
  }

  lemma MembersAreListed(s: Layout)
    requires Coherent(s)
    ensures forall x | x in ActiveMembers(s) :: x in s.terminalIds
  {
    hide IdsOk, GroupsOk, NoDuplicates;
    var i := IndexOfGroup(s.terminalGroups, s.activeTerminalGroupId);
    forall x | x in ActiveMembers(s) ensures x in s.terminalIds {
      assert s.terminalGroups[i] in s.terminalGroups;
      assert x in MemberIds(s.terminalGroups);
    }
  }

  lemma NewKeepsCap(s: Layout, t: string)
    requires Coherent(s) && WithinCap(s) && Usable(t)
    ensures WithinCap(Upsert(s, t, New))
  {
    hide Normalize, DropTerminal, UniqueGroupId, GroupIds, Coherent, Usable, Trim;
    if Trim(t) == [] {
      BlankUpsert(s, t);
    } else {
      BlankIsNoId(t);
      NewKeepsCoherence(s, t);
      DropWithinCap(s.terminalGroups, t);
    }
  }

  lemma CloseKeepsCap(s: Layout, t: string)
    requires Coherent(s) && WithinCap(s)
    ensures WithinCap(Close(s, t))
  {
    hide Normalize, DropTerminal, Coherent, Without;
    CoherentIsNormal(s);
    if t in s.terminalIds && Without(s.terminalIds, t) != [] {
      CloseParts(s, t);
      DropWithinCap(s.terminalGroups, t);
    }
  }

  lemma SetActiveKeepsGroups(s: Layout, t: string)
    requires Coherent(s)
    ensures SetActive(s, t).terminalGroups == s.terminalGroups
  {
    hide Normalize, Coherent;
    CoherentIsNormal(s);
  }

  lemma SettersKeepGroups(s: Layout, open: bool, height: Number, t: string, running: bool)
    requires Coherent(s)
    ensures SetOpen(s, open).terminalGroups == s.terminalGroups
    ensures SetHeight(s, height).terminalGroups == s.terminalGroups
    ensures SetActivity(s, t, running).terminalGroups == s.terminalGroups
  {
    hide Normalize, Coherent, Without;
    CoherentIsNormal(s);
  }

  lemma EnsureKeepsCap(s: Layout, t: string, open: Option<bool>, active: Option<bool>)
    requires Coherent(s) && WithinCap(s) && Usable(t)
    ensures WithinCap(Ensure(s, t, open, active))
  {
    hide Normalize, Coherent, WithNewGroup, Trim, Usable, SetActive, SetOpen, Upsert, CapOk;
    var s1 := if t !in s.terminalIds then Upsert(s, t, New) else s;
    UpsertKeepsCoherence(s, t, New);
    NewKeepsCap(s, t);
    var s2 := if active == Some(false)
              then s1.(activeTerminalId := s.activeTerminalId, activeTerminalGroupId := s.activeTerminalGroupId) else s1;
    if active == Some(false) && t !in s.terminalIds {
      if Trim(t) == [] {
        BlankUpsert(s, t);
      } else {
        BlankIsNoId(t);
        NewKeepsCoherence(s, t);
        ReactivateKeepsCoherence(s, t);
      }
    }
    assert s2 == s || Coherent(s2);
    SetActiveKeepsCoherence(s2, t);
    SetActiveKeepsGroups(s2, t);
    var s3 := if active != Some(false) then SetActive(s2, t) else s2;
    SimpleSettersKeepCoherence(s3, true, NotFinite);
    SettersKeepGroups(s3, true, NotFinite, t, true);
    var s4 := if open == Some(true) then SetOpen(s3, true) else s3;
    CoherentIsNormal(s4);
  }

  lemma StartKeepsCap(s: Layout, t: string)
    requires Coherent(s) && WithinCap(s) && Usable(t)
    ensures WithinCap(Start(s, t))
  {
    hide Normalize, Coherent, Usable, SetActive, SetOpen, Upsert, CapOk;
    UpsertKeepsCoherence(s, t, New);
    NewKeepsCap(s, t);
    var s1 := if t !in s.terminalIds then Upsert(s, t, New) else s;
    SetActiveKeepsCoherence(s1, t);
    SetActiveKeepsGroups(s1, t);
    SimpleSettersKeepCoherence(SetActive(s1, t), true, NotFinite);
    SettersKeepGroups(SetActive(s1, t), true, NotFinite, t, true);
    CoherentIsNormal(SetOpen(SetActive(s1, t), true));
  }

  lemma BlankSplit(s: Layout, t: string)
    requires Coherent(s) && Trim(t) == []
    ensures Upsert(s, t, Split) == s
  {
    hide Normalize;
    CoherentIsNormal(s);
  }

  /** One transition keeps the cap exactly when it is not a split that overfills a group. */
  lemma StepKeepsCap(s: Layout, a: Action)
    requires Coherent(s) && WithinCap(s) && Admissible(a)
    ensures WithinCap(Step(s, a)) <==> !(a.SplitInto? && Overfills(s, a.terminalId))
  {
    hide Normalize, Coherent, Usable, SetOpen, SetHeight, Upsert, Ensure, SetActive, Close, SetActivity, Start, CapOk, Overfills, Trim;
    match a {
      case Opened(open) => SettersKeepGroups(s, open, NotFinite, [], true);
      case Resized(height) => SettersKeepGroups(s, true, height, [], true);
      case SplitInto(t) =>
        if Trim(t) == [] {
          BlankSplit(s, t);
          BlankNeverOverfills(s, t);
        } else {
          BlankIsNoId(t);
          SplitKeepsCap(s, t);
        }
      case Created(t) => NewKeepsCap(s, t);
      case Ensured(t, open, active) => EnsureKeepsCap(s, t, open, active);
      case Activated(t) => SetActiveKeepsGroups(s, t);
      case Closed(t) => CloseKeepsCap(s, t);
      case ActivityChanged(t, running) => SettersKeepGroups(s, true, NotFinite, t, running);
      case Started(t) => StartKeepsCap(s, t);
      case Cleared => DefaultWithinCap();
    }
  }

  lemma BlankNeverOverfills(s: Layout, t: string)
    requires Coherent(s) && Trim(t) == []
    ensures !Overfills(s, t)
  {
    hide Trim;
    if t in s.terminalIds {
      assert IsId(t);
      TrimFixes(t);
    }
  }

  lemma DefaultWithinCap()
    ensures WithinCap(DEFAULT_LAYOUT)
  {}

  /** No split of the run moves an existing terminal into a full group. */
  ghost predicate NeverOverfills(s: Layout, actions: seq<Action>)
    decreases |actions|
  {
    actions != [] ==>
      && !(actions[0].SplitInto? && Overfills(s, actions[0].terminalId))
      && NeverOverfills(Step(s, actions[0]), actions[1..])
  }

  /** Over such a run no group ever exceeds the cap. */
  lemma {:induction false} RunKeepsCap(s: Layout, actions: seq<Action>)
    requires Coherent(s) && WithinCap(s) && NeverOverfills(s, actions) && forall a | a in actions :: Admissible(a)
    ensures WithinCap(Run(s, actions))
    decreases |actions|
  {
    hide Coherent, Step, Admissible, Overfills, WithinCap;
    if actions != [] {
      assert Admissible(actions[0]);
      StepKeepsCoherence(s, actions[0]);
      StepKeepsCap(s, actions[0]);
      RunKeepsCap(Step(s, actions[0]), actions[1..]);
    }
  }

  /** Splitting in a fresh terminal always keeps the cap: it is refused when there is no room. */
  lemma FreshSplitKeepsCap(s: Layout, t: string)
    requires Coherent(s) && WithinCap(s) && IsId(t) && t !in s.terminalIds
    ensures WithinCap(Upsert(s, t, Split))
  {
    hide Coherent, WithinCap, Upsert, IsId;
    SplitKeepsCap(s, t);
  }
}
