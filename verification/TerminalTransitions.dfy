/** The transitions of one thread's terminal layout, and what every one of them keeps. */
module TerminalTransitions {
  import opened Text
  import opened Sequences
  import opened TerminalLayout

  datatype Mode = Split | New

  function SetOpen(s: Layout, open: bool): Layout {
    var n := Normalize(s);
    if n.terminalOpen == open then n else n.(terminalOpen := open)
  }

  function SetHeight(s: Layout, height: Number): Layout {
    var n := Normalize(s);
    if height.NotFinite? || height.value <= 0.0 || n.terminalHeight == height then n else n.(terminalHeight := height)
  }

  /** The first group with the terminal loses it; a group left empty goes. */
  function RemoveTerminal(groups: seq<Group>, terminalId: string): seq<Group> {
    var i := GroupIndexOf(groups, terminalId);
    if i == |groups| then groups
    else
      var rest := Without(groups[i].terminalIds, terminalId);
      if rest == [] then groups[..i] + groups[i + 1..] else groups[i := groups[i].(terminalIds := rest)]
  }

  /** Index of the first group with the id; the number of groups when there is none. */
  function IndexOfGroup(groups: seq<Group>, id: string): (i: nat)
    ensures i <= |groups| && (i < |groups| ==> groups[i].id == id)
    ensures forall j | 0 <= j < i :: groups[j].id != id
  {
    if groups == [] || groups[0].id == id then 0 else 1 + IndexOfGroup(groups[1..], id)
  }

  /** Right behind the anchor, or at the end without one. */
  function InsertAfter(ids: seq<string>, anchor: string, terminalId: string): seq<string> {
    FirstIndexIs(ids, anchor);
    var k := FirstIndex(ids, anchor);
    if anchor in ids then ids[..k + 1] + [terminalId] + ids[k + 1..] else ids + [terminalId]
  }

  /** The groups with a destination for a split, and its index. */
  function Destination(groups: seq<Group>, s: Layout): (r: (seq<Group>, nat))
    ensures r.1 < |r.0|
  {
    var i := IndexOfGroup(groups, s.activeTerminalGroupId);
    var j := if i < |groups| then i else GroupIndexOf(groups, s.activeTerminalId);
    if j < |groups| then (groups, j)
    else (groups + [Group(UniqueGroupId(FallbackGroupId(s.activeTerminalId), GroupIds(groups)), [s.activeTerminalId])], |groups|)
  }

  function Upsert(s: Layout, terminalId: string, mode: Mode): Layout {
    var n := Normalize(s);
    if Trim(terminalId) == [] then n
    else
      var isNew := terminalId !in n.terminalIds;
      var ids := if isNew then n.terminalIds + [terminalId] else n.terminalIds;
      var groups := RemoveTerminal(n.terminalGroups, terminalId);
      if mode == New then
        var id := UniqueGroupId(FallbackGroupId(terminalId), GroupIds(groups));
        Normalize(n.(terminalOpen := true, terminalIds := ids, activeTerminalId := terminalId,
                     terminalGroups := groups + [Group(id, [terminalId])], activeTerminalGroupId := id))
      else
        var (all, d) := Destination(groups, n);
        var dest := all[d];
        if isNew && terminalId !in dest.terminalIds && |dest.terminalIds| >= MAX_PER_GROUP then n
        else
          var filled := if terminalId in dest.terminalIds then dest.terminalIds
                        else InsertAfter(dest.terminalIds, n.activeTerminalId, terminalId);
          Normalize(n.(terminalOpen := true, terminalIds := ids, activeTerminalId := terminalId,
                       terminalGroups := all[d := dest.(terminalIds := filled)], activeTerminalGroupId := dest.id))
  }

  function SetActive(s: Layout, terminalId: string): Layout {
    var n := Normalize(s);
    if terminalId !in n.terminalIds then n
    else
      var i := GroupIndexOf(n.terminalGroups, terminalId);
      n.(activeTerminalId := terminalId,
         activeTerminalGroupId := if i < |n.terminalGroups| then n.terminalGroups[i].id else n.activeTerminalGroupId)
  }

  /** Every group loses the terminal; groups left empty go. */
  function DropTerminal(groups: seq<Group>, terminalId: string): seq<Group> {
    if groups == [] then []
    else
      var rest := Without(groups[0].terminalIds, terminalId);
      if rest == [] then DropTerminal(groups[1..], terminalId)
      else [groups[0].(terminalIds := rest)] + DropTerminal(groups[1..], terminalId)
  }

  function Min(a: nat, b: nat): nat {
    if a <= b then a else b
  }

  function Close(s: Layout, terminalId: string): Layout {
    var n := Normalize(s);
    if terminalId !in n.terminalIds then n
    else
      var remaining := Without(n.terminalIds, terminalId);
      if remaining == [] then DEFAULT_LAYOUT
      else
        var active := if n.activeTerminalId == terminalId
                      then remaining[Min(FirstIndex(n.terminalIds, terminalId), |remaining| - 1)] else n.activeTerminalId;
        var groups := DropTerminal(n.terminalGroups, terminalId);
        var i := GroupIndexOf(groups, active);
        Normalize(Layout(n.terminalOpen, n.terminalHeight, remaining, Without(n.runningTerminalIds, terminalId), active, groups,
                         if i < |groups| then groups[i].id else if groups != [] then groups[0].id else FallbackGroupId(active)))
  }

  function SetActivity(s: Layout, terminalId: string, hasRunningSubprocess: bool): Layout {
    var n := Normalize(s);
    if terminalId !in n.terminalIds || hasRunningSubprocess == (terminalId in n.runningTerminalIds) then n
    else if hasRunningSubprocess then n.(runningTerminalIds := n.runningTerminalIds + [terminalId])
    else n.(runningTerminalIds := Without(n.runningTerminalIds, terminalId))
  }

  /** `ensureTerminal`; an option that is not given is None. */
  function Ensure(s: Layout, terminalId: string, open: Option<bool>, active: Option<bool>): Layout {
    var s1 := if terminalId !in s.terminalIds then Upsert(s, terminalId, New) else s;
    var s2 := if active == Some(false)
              then s1.(activeTerminalId := s.activeTerminalId, activeTerminalGroupId := s.activeTerminalGroupId) else s1;
    var s3 := if active != Some(false) then SetActive(s2, terminalId) else s2;
    var s4 := if open == Some(true) then SetOpen(s3, true) else s3;
    Normalize(s4)
  }

  /** What a `started` or `restarted` event does to the layout. */
  function Start(s: Layout, terminalId: string): Layout {
    var s1 := if terminalId !in s.terminalIds then Upsert(s, terminalId, New) else s;
    Normalize(SetOpen(SetActive(s1, terminalId), true))
  }

  /** The program's version of `Upsert`: the groups are copied and spliced in place. */
  method UpsertTerminalIntoGroups(state: Layout, terminalId: string, mode: Mode) returns (result: Layout)
    ensures result == Upsert(state, terminalId, mode)
  {
    hide Normalize, UniqueGroupId, FallbackGroupId, Without, Trim, GroupIds;
    var normalized := Normalize(state);
    if Trim(terminalId) == [] {
      return normalized;
    }
    var isNewTerminal := terminalId !in normalized.terminalIds;
    var terminalIds := if isNewTerminal then normalized.terminalIds + [terminalId] else normalized.terminalIds;
    var terminalGroups := normalized.terminalGroups;
    var existingGroupIndex := GroupIndexOf(terminalGroups, terminalId);
    if existingGroupIndex < |terminalGroups| {
      var existing := terminalGroups[existingGroupIndex];
      terminalGroups := terminalGroups[existingGroupIndex := existing.(terminalIds := Without(existing.terminalIds, terminalId))];
      if terminalGroups[existingGroupIndex].terminalIds == [] {
        terminalGroups := terminalGroups[..existingGroupIndex] + terminalGroups[existingGroupIndex + 1..];
      }
    }
    assert terminalGroups == RemoveTerminal(normalized.terminalGroups, terminalId);
    if mode == New {
      var nextGroupId, _ := AssignUniqueGroupId(FallbackGroupId(terminalId), GroupIds(terminalGroups));
      terminalGroups := terminalGroups + [Group(nextGroupId, [terminalId])];
      return Normalize(normalized.(terminalOpen := true, terminalIds := terminalIds, activeTerminalId := terminalId,
                                   terminalGroups := terminalGroups, activeTerminalGroupId := nextGroupId));
    }
    var activeGroupIndex := IndexOfGroup(terminalGroups, normalized.activeTerminalGroupId);
    if activeGroupIndex == |terminalGroups| {
      activeGroupIndex := GroupIndexOf(terminalGroups, normalized.activeTerminalId);
    }
    if activeGroupIndex == |terminalGroups| {
      var nextGroupId, _ := AssignUniqueGroupId(FallbackGroupId(normalized.activeTerminalId), GroupIds(terminalGroups));
      terminalGroups := terminalGroups + [Group(nextGroupId, [normalized.activeTerminalId])];
    }
    var destinationGroup := terminalGroups[activeGroupIndex];
    if isNewTerminal && terminalId !in destinationGroup.terminalIds && |destinationGroup.terminalIds| >= MAX_PER_GROUP {
      return normalized;
    }
    if terminalId !in destinationGroup.terminalIds {
      destinationGroup := destinationGroup.(terminalIds := InsertAfter(destinationGroup.terminalIds, normalized.activeTerminalId, terminalId));
    }
    terminalGroups := terminalGroups[activeGroupIndex := destinationGroup];
    result := Normalize(normalized.(terminalOpen := true, terminalIds := terminalIds, activeTerminalId := terminalId,
                                    terminalGroups := terminalGroups, activeTerminalGroupId := destinationGroup.id));
  }

  // Coherence

  ghost predicate Holds(groups: seq<Group>, groupId: string, terminalId: string) {
    exists g | g in groups :: g.id == groupId && terminalId in g.terminalIds
  }

  /** Well-formed, and the active group contains the active terminal. */
  ghost predicate Coherent(s: Layout) {
    WellFormed(s) && Holds(s.terminalGroups, s.activeTerminalGroupId, s.activeTerminalId)
  }

  /** A terminal id the rest of the program would pass: trimmed, or blank and ignored. */
  predicate Usable(terminalId: string) {
    Trimmed(terminalId) || Trim(terminalId) == []
  }

  // Groups under removal

  lemma {:induction false} DropAbsent(groups: seq<Group>, t: string)
    requires forall g | g in groups :: t !in g.terminalIds && g.terminalIds != []
    ensures DropTerminal(groups, t) == groups
  {
    if groups != [] {
      WithoutAbsent(groups[0].terminalIds, t);
      DropAbsent(groups[1..], t);
      assert groups == [groups[0]] + groups[1..];
    }
  }

  lemma {:induction false} DropConcat(a: seq<Group>, b: seq<Group>, t: string)
    ensures DropTerminal(a + b, t) == DropTerminal(a, t) + DropTerminal(b, t)
  {
    hide Without;
    if a == [] {
      assert a + b == b;
    } else {
      assert (a + b)[1..] == a[1..] + b;
      DropConcat(a[1..], b, t);
    }
  }

  lemma DropOne(g: Group, t: string)
    ensures DropTerminal([g], t) == if Without(g.terminalIds, t) == [] then [] else [g.(terminalIds := Without(g.terminalIds, t))]
  {
    hide Without;
    assert [g][1..] == [];
  }

  lemma AbsentElsewhere(groups: seq<Group>, i: nat, t: string)
    requires GroupsOk(groups) && i < |groups| && t in groups[i].terminalIds
    ensures forall g | g in groups[..i] + groups[i + 1..] :: t !in g.terminalIds && g.terminalIds != []
  {
    hide GroupOk;
    forall g | g in groups[..i] + groups[i + 1..] ensures t !in g.terminalIds && g.terminalIds != [] {
      var j :| 0 <= j < |groups| && j != i && groups[j] == g;
      assert GroupOk(groups[j]) && (if i < j then Apart(groups[i], groups[j]) else Apart(groups[j], groups[i]));
      OkIsNonEmpty(g);
    }
  }

  lemma OkIsNonEmpty(g: Group)
    requires GroupOk(g)
    ensures g.terminalIds != []
  {}

  lemma DropAround(a: seq<Group>, g: Group, b: seq<Group>, t: string)
    requires forall h | h in a + b :: t !in h.terminalIds && h.terminalIds != []
    ensures DropTerminal(a + [g] + b, t)
         == a + (if Without(g.terminalIds, t) == [] then [] else [g.(terminalIds := Without(g.terminalIds, t))]) + b
  {
    hide Without, DropTerminal;
    DropConcat(a + [g], b, t);
    DropConcat(a, [g], t);
    DropOne(g, t);
    DropAbsent(a, t);
    DropAbsent(b, t);
  }

  lemma Replaced(groups: seq<Group>, i: nat, g: Group)
    requires i < |groups|
    ensures groups == groups[..i] + [groups[i]] + groups[i + 1..]
    ensures groups[i := g] == groups[..i] + [g] + groups[i + 1..]
    ensures groups[..i] + [] + groups[i + 1..] == groups[..i] + groups[i + 1..]
  {}

  /** In well-formed groups a terminal has one home, so removing it there removes it everywhere. */
  lemma RemoveIsDrop(groups: seq<Group>, t: string)
    requires GroupsOk(groups)
    ensures RemoveTerminal(groups, t) == DropTerminal(groups, t)
  {
    hide DropTerminal, GroupIndexOf, GroupOk, Without;
    var i := GroupIndexOf(groups, t);
    if i == |groups| {
      forall g | g in groups ensures t !in g.terminalIds && g.terminalIds != [] {
        OkIsNonEmpty(g);
      }
      DropAbsent(groups, t);
    } else {
      var a, g, b := groups[..i], groups[i], groups[i + 1..];
      AbsentElsewhere(groups, i, t);
      DropAround(a, g, b, t);
      Replaced(groups, i, g.(terminalIds := Without(g.terminalIds, t)));
    }
  }

  /** What is left of a group. */
  ghost predicate LeftOf(h: Group, g: Group, t: string) {
    h == g.(terminalIds := Without(g.terminalIds, t)) && h.terminalIds != []
  }

  lemma {:induction false} DropSources(groups: seq<Group>, t: string)
    ensures forall h | h in DropTerminal(groups, t) :: exists g :: g in groups && LeftOf(h, g, t)
    ensures forall g | g in groups && Without(g.terminalIds, t) != [] :: g.(terminalIds := Without(g.terminalIds, t)) in DropTerminal(groups, t)
  {
    hide Without;
    if groups != [] {
      DropSources(groups[1..], t);
      forall h | h in DropTerminal(groups, t) ensures exists g :: g in groups && LeftOf(h, g, t) {
        if h in DropTerminal(groups[1..], t) {
          var g :| g in groups[1..] && LeftOf(h, g, t);
          assert g in groups;
        } else {
          assert LeftOf(h, groups[0], t);
        }
      }
    }
  }

  lemma LeftOfIsApart(h: Group, g: Group, h': Group, g': Group, t: string)
    requires LeftOf(h, g, t) && LeftOf(h', g', t) && Apart(g, g')
    ensures Apart(h, h')
  {
    hide Without;
    WithoutMembers(g.terminalIds, t);
    WithoutMembers(g'.terminalIds, t);
  }

  lemma {:induction false} DropOk(groups: seq<Group>, t: string)
    requires GroupsOk(groups)
    ensures GroupsOk(DropTerminal(groups, t))
  {
    hide Without, GroupOk, Apart;
    if groups != [] {
      var g, rest := groups[0], groups[1..];
      assert forall i | 0 <= i < |rest| :: rest[i] == groups[i + 1];
      assert GroupsOk(rest);
      DropOk(rest, t);
      DropSources(rest, t);
      var r := DropTerminal(rest, t);
      var h := g.(terminalIds := Without(g.terminalIds, t));
      if h.terminalIds != [] {
        LeftIsOk(g, t);
        forall j | 0 <= j < |r| ensures Apart(h, r[j]) {
          assert r[j] in r;
          var g' :| g' in rest && LeftOf(r[j], g', t);
          var k :| 0 <= k < |rest| && rest[k] == g';
          assert Apart(groups[0], groups[k + 1]);
          LeftOfIsApart(h, g, r[j], g', t);
        }
      }
    }
  }

  lemma LeftIsOk(g: Group, t: string)
    requires GroupOk(g) && Without(g.terminalIds, t) != []
    ensures GroupOk(g.(terminalIds := Without(g.terminalIds, t)))
  {
    WithoutIsDistinct(g.terminalIds, t);
  }

  lemma DropMemberIds(groups: seq<Group>, t: string)
    ensures MemberIds(DropTerminal(groups, t)) == MemberIds(groups) - {t}
  {
    hide Without, DropTerminal;
    DropSources(groups, t);
    var r := DropTerminal(groups, t);
    forall x | x in MemberIds(r) ensures x in MemberIds(groups) && x != t {
      var h :| h in r && x in h.terminalIds;
      var g :| g in groups && LeftOf(h, g, t);
      WithoutMember(g.terminalIds, t, x);
    }
    forall x | x in MemberIds(groups) && x != t ensures x in MemberIds(r) {
      var g :| g in groups && x in g.terminalIds;
      WithoutMember(g.terminalIds, t, x);
      assert g.(terminalIds := Without(g.terminalIds, t)) in r;
    }
  }

  // Groups under insertion

  lemma Spliced(a: seq<string>, b: seq<string>, t: string)
    requires t !in a + b
    ensures forall x :: x in a + [t] + b <==> x in a + b || x == t
    ensures NoDuplicates(a + b) ==> NoDuplicates(a + [t] + b)
  {
    var s, r := a + b, a + [t] + b;
    forall i | 0 <= i < |r| && i != |a| ensures r[i] == s[if i < |a| then i else i - 1] {}
    forall x | x in s ensures x in r {
      var i :| 0 <= i < |s| && s[i] == x;
      assert r[if i < |a| then i else i + 1] == x;
    }
    assert r[|a|] == t;
  }

  lemma InsertAfterSpec(ids: seq<string>, anchor: string, t: string)
    requires t !in ids
    ensures forall x :: x in InsertAfter(ids, anchor, t) <==> x in ids || x == t
    ensures NoDuplicates(ids) ==> NoDuplicates(InsertAfter(ids, anchor, t))
    ensures |InsertAfter(ids, anchor, t)| == |ids| + 1
    ensures Without(InsertAfter(ids, anchor, t), t) == ids
  {
    hide FirstIndex, Without, NoDuplicates;
    FirstIndexIs(ids, anchor);
    var k := if anchor in ids then FirstIndex(ids, anchor) + 1 else |ids|;
    var a, b := ids[..k], ids[k..];
    assert ids == a + b && InsertAfter(ids, anchor, t) == a + [t] + b;
    Spliced(a, b, t);
    WithoutSpliced(a, b, t);
  }

  lemma PutInGroup(groups: seq<Group>, d: nat, filled: seq<string>, t: string)
    requires GroupsOk(groups) && d < |groups| && t !in MemberIds(groups)
    requires NoDuplicates(filled) && forall x :: x in filled <==> x in groups[d].terminalIds || x == t
    ensures var r := groups[d := groups[d].(terminalIds := filled)];
      GroupsOk(r) && MemberIds(r) == MemberIds(groups) + {t}
  {
    hide NoDuplicates, IsId;
    var g := groups[d].(terminalIds := filled);
    var r := groups[d := g];
    assert GroupOk(groups[d]) && t in filled;
    forall h | h in r ensures GroupOk(h) { assert h == g || h in groups; }
    forall i, j | 0 <= i < j < |r| ensures Apart(r[i], r[j]) {
      assert Apart(groups[i], groups[j]);
      assert t !in groups[i].terminalIds && t !in groups[j].terminalIds by {
        assert groups[i] in groups && groups[j] in groups;
      }
    }
    forall x ensures x in MemberIds(r) <==> x in MemberIds(groups) || x == t {
      if x in MemberIds(r) {
        var h :| h in r && x in h.terminalIds;
        var i :| 0 <= i < |r| && r[i] == h;
        assert i != d ==> groups[i] == h;
        assert groups[i] in groups;
      }
      if x in MemberIds(groups) {
        var h :| h in groups && x in h.terminalIds;
        var i :| 0 <= i < |groups| && groups[i] == h;
        assert r[i] in r && x in r[i].terminalIds;
      }
      if x == t { assert r[d] in r; }
    }
  }

  // What each transition keeps

  lemma CoherentIsNormal(s: Layout)
    requires Coherent(s)
    ensures Normalize(s) == s && WellFormed(s)
  {
    NormalizeFixes(s);
  }

  lemma AppendedIdsOk(ids: seq<string>, t: string)
    requires IdsOk(ids) && IsId(t) && t !in ids
    ensures IdsOk(ids + [t])
  {
    hide IsId;
  }

  lemma BlankIsNoId(t: string)
    requires Usable(t) && Trim(t) != []
    ensures IsId(t)
  {
    if Trimmed(t) { TrimFixes(t); }
  }

  /** The layout a transition assembles from well-formed parts. */
  lemma AssembledIsCoherent(s: Layout)
    requires s.terminalIds != [] && IdsOk(s.terminalIds) && GroupsOk(s.terminalGroups)
    requires MemberIds(s.terminalGroups) == set x | x in s.terminalIds
    requires NoDuplicates(s.runningTerminalIds) && forall x | x in s.runningTerminalIds :: x in s.terminalIds
    requires s.activeTerminalId in s.terminalIds
    requires Holds(s.terminalGroups, s.activeTerminalGroupId, s.activeTerminalId)
    requires s.terminalHeight.Finite? && s.terminalHeight.value > 0.0
    ensures Coherent(s) && Normalize(s) == s
  {
    hide IdsOk, GroupsOk, MemberIds, NoDuplicates, Normalize;
    var g :| g in s.terminalGroups && g.id == s.activeTerminalGroupId && s.activeTerminalId in g.terminalIds;
    assert HasGroup(s.terminalGroups, s.activeTerminalGroupId);
    NormalizeFixes(s);
  }

  /** The layout `Upsert` assembles in the `New` mode. */
  function WithNewGroup(s: Layout, t: string): Layout {
    var groups := DropTerminal(s.terminalGroups, t);
    var id := UniqueGroupId(FallbackGroupId(t), GroupIds(groups));
    s.(terminalOpen := true, terminalIds := if t in s.terminalIds then s.terminalIds else s.terminalIds + [t],
       activeTerminalId := t, terminalGroups := groups + [Group(id, [t])], activeTerminalGroupId := id)
  }

  lemma NewKeepsCoherence(s: Layout, t: string)
    requires Coherent(s) && IsId(t)
    ensures Upsert(s, t, New) == WithNewGroup(s, t) && Coherent(WithNewGroup(s, t))
  {
    hide Normalize, DropTerminal, RemoveTerminal, UniqueGroupId, GroupIds, FallbackGroupId, IdsOk, GroupsOk, MemberIds, NoDuplicates, Trim, Trimmed;
    CoherentIsNormal(s);
    TrimFixes(t);
    var groups := DropTerminal(s.terminalGroups, t);
    RemoveIsDrop(s.terminalGroups, t);
    DropOk(s.terminalGroups, t);
    DropMemberIds(s.terminalGroups, t);
    FallbackIsId(t);
    UniqueIsId(FallbackGroupId(t), GroupIds(groups));
    var r := WithNewGroup(s, t);
    var g := Group(r.activeTerminalGroupId, [t]);
    SingletonGroupOk(g.id, t);
    AddGroupOk(groups, g);
    if t !in s.terminalIds { AppendedIdsOk(s.terminalIds, t); }
    assert g in r.terminalGroups && t in g.terminalIds;
    AssembledIsCoherent(r);
  }

  lemma SingletonGroupOk(id: string, t: string)
    requires IsId(id)
    ensures GroupOk(Group(id, [t]))
  {}

  // Splitting

  /** The layout `Upsert` assembles in the `Split` mode when the destination has room. */
  function WithSplit(s: Layout, t: string): Layout {
    var (all, d) := Destination(DropTerminal(s.terminalGroups, t), s);
    var dest := all[d];
    var filled := if t in dest.terminalIds then dest.terminalIds else InsertAfter(dest.terminalIds, s.activeTerminalId, t);
    s.(terminalOpen := true, terminalIds := if t in s.terminalIds then s.terminalIds else s.terminalIds + [t],
       activeTerminalId := t, terminalGroups := all[d := dest.(terminalIds := filled)], activeTerminalGroupId := dest.id)
  }

  /** A new terminal is refused when the destination group is full. */
  predicate Full(s: Layout, t: string) {
    var (all, d) := Destination(DropTerminal(s.terminalGroups, t), s);
    t !in s.terminalIds && t !in all[d].terminalIds && |all[d].terminalIds| >= MAX_PER_GROUP
  }

  lemma SplitIs(s: Layout, t: string)
    requires Coherent(s) && IsId(t)
    ensures Upsert(s, t, Split) == if Full(s, t) then s else Normalize(WithSplit(s, t))
  {
    hide Normalize, DropTerminal, RemoveTerminal, Destination, IdsOk, GroupsOk, Trim, Trimmed, InsertAfter, GroupOk, Apart;
    CoherentIsNormal(s);
    TrimFixes(t);
    RemoveIsDrop(s.terminalGroups, t);
  }

  /** Either the destination is one of the remaining groups and lacks the terminal, or the terminal
      was alone in the active group and gets a group of its own again. */
  lemma DestinationSpec(s: Layout, t: string)
    requires Coherent(s)
    ensures var groups := DropTerminal(s.terminalGroups, t);
      var (all, d) := Destination(groups, s);
      if all == groups then t !in all[d].terminalIds && all[d].id == s.activeTerminalGroupId
      else
        && s.activeTerminalId == t && d == |groups|
        && all == groups + [Group(UniqueGroupId(FallbackGroupId(t), GroupIds(groups)), [t])]
  {
    hide DropTerminal, UniqueGroupId, GroupIds, FallbackGroupId, IdsOk, GroupsOk, NoDuplicates, Without;
    var groups := DropTerminal(s.terminalGroups, t);
    DropMemberIds(s.terminalGroups, t);
    DropSources(s.terminalGroups, t);
    var g :| g in s.terminalGroups && g.id == s.activeTerminalGroupId && s.activeTerminalId in g.terminalIds;
    AbsentFromGroups(groups, t);
    if IndexOfGroup(groups, s.activeTerminalGroupId) == |groups| {
      // The active group is gone, so it held nothing else.
      assert g.(terminalIds := Without(g.terminalIds, t)) !in groups;
      WithoutMember(g.terminalIds, t, s.activeTerminalId);
      assert s.activeTerminalId == t;
    }
  }

  lemma AbsentFromGroups(groups: seq<Group>, t: string)
    requires t !in MemberIds(groups)
    ensures forall i | 0 <= i < |groups| :: t !in groups[i].terminalIds
  {
    forall i | 0 <= i < |groups| ensures t !in groups[i].terminalIds {
      assert groups[i] in groups;
    }
  }

  lemma SplitKeepsCoherence(s: Layout, t: string)
    requires Coherent(s) && IsId(t)
    ensures Coherent(WithSplit(s, t)) && Normalize(WithSplit(s, t)) == WithSplit(s, t)
  {
    hide Normalize, DropTerminal, UniqueGroupId, GroupIds, FallbackGroupId, IdsOk, GroupsOk, MemberIds, NoDuplicates, InsertAfter, Destination;
    CoherentIsNormal(s);
    var groups := DropTerminal(s.terminalGroups, t);
    DropOk(s.terminalGroups, t);
    DropMemberIds(s.terminalGroups, t);
    DestinationSpec(s, t);
    var (all, d) := Destination(groups, s);
    var r := WithSplit(s, t);
    var dest := all[d];
    if all == groups {
      InsertAfterSpec(dest.terminalIds, s.activeTerminalId, t);
      DestinationDistinct(groups, d);
      PutInGroup(groups, d, InsertAfter(dest.terminalIds, s.activeTerminalId, t), t);
    } else {
      FallbackIsId(t);
      UniqueIsId(FallbackGroupId(t), GroupIds(groups));
      SingletonGroupOk(dest.id, t);
      AddGroupOk(groups, dest);
      assert all[d := dest] == all;
    }
    if t !in s.terminalIds { AppendedIdsOk(s.terminalIds, t); }
    assert r.terminalGroups[d] in r.terminalGroups;
    AssembledIsCoherent(r);
  }

  lemma DestinationDistinct(groups: seq<Group>, d: nat)
    requires GroupsOk(groups) && d < |groups|
    ensures NoDuplicates(groups[d].terminalIds)
  {
    assert GroupOk(groups[d]);
  }

  // The other transitions

  lemma UpsertKeepsCoherence(s: Layout, t: string, mode: Mode)
    requires Coherent(s) && Usable(t)
    ensures Coherent(Upsert(s, t, mode))
  {
    hide Normalize, Coherent, WithNewGroup, WithSplit, Full, Trim, Usable;
    CoherentIsNormal(s);
    if Trim(t) != [] {
      BlankIsNoId(t);
      if mode == New {
        NewKeepsCoherence(s, t);
      } else {
        SplitIs(s, t);
        SplitKeepsCoherence(s, t);
      }
    }
  }

  lemma SetActiveKeepsCoherence(s: Layout, t: string)
    requires Coherent(s)
    ensures Coherent(SetActive(s, t))
  {
    hide Normalize, IdsOk, GroupsOk, NoDuplicates;
    CoherentIsNormal(s);
    if t in s.terminalIds {
      assert t in MemberIds(s.terminalGroups);
      var g :| g in s.terminalGroups && t in g.terminalIds;
      var i := GroupIndexOf(s.terminalGroups, t);
      var j :| 0 <= j < |s.terminalGroups| && s.terminalGroups[j] == g;
      assert s.terminalGroups[i] in s.terminalGroups;
    }
  }

  lemma SimpleSettersKeepCoherence(s: Layout, open: bool, height: Number)
    requires Coherent(s)
    ensures Coherent(SetOpen(s, open)) && Coherent(SetHeight(s, height))
  {
    hide Normalize, IdsOk, GroupsOk, NoDuplicates, MemberIds, Holds;
    CoherentIsNormal(s);
  }

  lemma SetActivityKeepsCoherence(s: Layout, t: string, running: bool)
    requires Coherent(s)
    ensures Coherent(SetActivity(s, t, running))
  {
    hide Normalize, IdsOk, GroupsOk, MemberIds, Holds, Without;
    CoherentIsNormal(s);
    WithoutIsDistinct(s.runningTerminalIds, t);
    WithoutMembers(s.runningTerminalIds, t);
  }

  lemma DefaultIsCoherent()
    ensures Coherent(DEFAULT_LAYOUT)
  {
    DefaultIdOk();
    var g := DEFAULT_LAYOUT.terminalGroups[0];
    assert g in DEFAULT_LAYOUT.terminalGroups && DEFAULT_ID in g.terminalIds;
    assert MemberIds([g]) == {DEFAULT_ID};
    assert (set x | x in [DEFAULT_ID]) == {DEFAULT_ID};
  }

  /** The terminal that is active after a close. */
  function ActiveAfterClose(s: Layout, t: string): string
    requires Without(s.terminalIds, t) != []
  {
    var remaining := Without(s.terminalIds, t);
    if s.activeTerminalId == t then remaining[Min(FirstIndex(s.terminalIds, t), |remaining| - 1)] else s.activeTerminalId
  }

  /** What closing leaves of a coherent layout that has another terminal. */
  function WithoutTerminal(s: Layout, t: string): Layout
    requires Without(s.terminalIds, t) != []
  {
    var groups := DropTerminal(s.terminalGroups, t);
    var i := GroupIndexOf(groups, ActiveAfterClose(s, t));
    Layout(s.terminalOpen, s.terminalHeight, Without(s.terminalIds, t), Without(s.runningTerminalIds, t),
           ActiveAfterClose(s, t), groups, if i < |groups| then groups[i].id else s.activeTerminalGroupId)
  }

  lemma ActiveAfterCloseRemains(s: Layout, t: string)
    requires Coherent(s) && t in s.terminalIds && Without(s.terminalIds, t) != []
    ensures ActiveAfterClose(s, t) in Without(s.terminalIds, t)
  {
    hide GroupsOk, MemberIds, NoDuplicates, Without, IsId, FirstIndex;
    var remaining := Without(s.terminalIds, t);
    WithoutMembers(s.terminalIds, t);
    var k := Min(FirstIndex(s.terminalIds, t), |remaining| - 1);
    assert remaining[k] in remaining;
  }

  lemma CloseIs(s: Layout, t: string)
    requires Coherent(s) && t in s.terminalIds && Without(s.terminalIds, t) != []
    ensures Close(s, t) == WithoutTerminal(s, t) && Coherent(WithoutTerminal(s, t))
  {
    hide Normalize, DropTerminal, FallbackGroupId, GroupsOk, MemberIds, NoDuplicates, Without, IsId, FirstIndex, Min;
    CoherentIsNormal(s);
    WithoutMembers(s.terminalIds, t);
    WithoutIsDistinct(s.terminalIds, t);
    WithoutMembers(s.runningTerminalIds, t);
    WithoutIsDistinct(s.runningTerminalIds, t);
    DropOk(s.terminalGroups, t);
    DropMemberIds(s.terminalGroups, t);
    ActiveAfterCloseRemains(s, t);
    GroupOfMember(DropTerminal(s.terminalGroups, t), ActiveAfterClose(s, t));
    AssembledIsCoherent(WithoutTerminal(s, t));
  }

  lemma CloseKeepsCoherence(s: Layout, t: string)
    requires Coherent(s)
    ensures Coherent(Close(s, t))
  {
    hide Normalize, DropTerminal, GroupsOk, MemberIds, NoDuplicates, Without, IsId, FirstIndex, WithoutTerminal, Coherent;
    CoherentIsNormal(s);
    DefaultIsCoherent();
    if t in s.terminalIds && Without(s.terminalIds, t) != [] {
      CloseIs(s, t);
    }
  }

  lemma GroupOfMember(groups: seq<Group>, x: string)
    requires x in MemberIds(groups)
    ensures var i := GroupIndexOf(groups, x); i < |groups| && Holds(groups, groups[i].id, x)
  {
    var g :| g in groups && x in g.terminalIds;
    var i := GroupIndexOf(groups, x);
    var j :| 0 <= j < |groups| && groups[j] == g;
    assert groups[i] in groups;
  }

  /** Making the old active terminal active again after adding another terminal. */
  lemma ReactivateKeepsCoherence(s: Layout, t: string)
    requires Coherent(s) && IsId(t) && t !in s.terminalIds
    ensures Coherent(WithNewGroup(s, t).(activeTerminalId := s.activeTerminalId, activeTerminalGroupId := s.activeTerminalGroupId))
  {
    hide Normalize, UniqueGroupId, GroupIds, FallbackGroupId, IdsOk, GroupsOk, NoDuplicates, DropTerminal;
    NewKeepsCoherence(s, t);
    FreshIsAbsent(s, t);
    DropAbsent(s.terminalGroups, t);
    var r := WithNewGroup(s, t);
    var g :| g in s.terminalGroups && g.id == s.activeTerminalGroupId && s.activeTerminalId in g.terminalIds;
    assert g in r.terminalGroups;
  }

  lemma FreshIsAbsent(s: Layout, t: string)
    requires Coherent(s) && t !in s.terminalIds
    ensures forall g | g in s.terminalGroups :: t !in g.terminalIds && g.terminalIds != []
  {
    hide IdsOk, NoDuplicates;
    AbsentFromGroups(s.terminalGroups, t);
    forall g | g in s.terminalGroups ensures g.terminalIds != [] {
      assert GroupOk(g);
    }
  }

  lemma EnsureKeepsCoherence(s: Layout, t: string, open: Option<bool>, active: Option<bool>)
    requires Coherent(s) && Usable(t)
    ensures Coherent(Ensure(s, t, open, active))
  {
    hide Normalize, Coherent, WithNewGroup, Trim, Usable, SetActive, SetOpen, Upsert;
    CoherentIsNormal(s);
    var s1 := if t !in s.terminalIds then Upsert(s, t, New) else s;
    UpsertKeepsCoherence(s, t, New);
    var s2 := if active == Some(false)
              then s1.(activeTerminalId := s.activeTerminalId, activeTerminalGroupId := s.activeTerminalGroupId) else s1;
    if active == Some(false) && t !in s.terminalIds {
      if Trim(t) == [] {
        BlankUpsert(s, t);
      } else {
        BlankIsNoId(t);
        NewKeepsCoherence(s, t);
        ReactivateKeepsCoherence(s, t);
      }
    }
    assert s2 == s || Coherent(s2);
    SetActiveKeepsCoherence(s2, t);
    var s3 := if active != Some(false) then SetActive(s2, t) else s2;
    SimpleSettersKeepCoherence(s3, true, NotFinite);
    var s4 := if open == Some(true) then SetOpen(s3, true) else s3;
    CoherentIsNormal(s4);
  }

  lemma BlankUpsert(s: Layout, t: string)
    requires Coherent(s) && Trim(t) == []
    ensures Upsert(s, t, New) == s
  {
    hide Normalize;
    CoherentIsNormal(s);
  }

  lemma StartKeepsCoherence(s: Layout, t: string)
    requires Coherent(s) && Usable(t)
    ensures Coherent(Start(s, t))
  {
    hide Normalize, Coherent, Usable, SetActive, SetOpen, Upsert;
    UpsertKeepsCoherence(s, t, New);
    var s1 := if t !in s.terminalIds then Upsert(s, t, New) else s;
    SetActiveKeepsCoherence(s1, t);
    SimpleSettersKeepCoherence(SetActive(s1, t), true, NotFinite);
    CoherentIsNormal(SetOpen(SetActive(s1, t), true));
  }

  // Whatever the ids

  predicate RunningTrimmed(s: Layout) {
    forall x | x in s.runningTerminalIds :: Trimmed(x)
  }

  /** The normaliser makes a layout whose running ids are trimmed well-formed, however it was assembled. */
  lemma AssembledIsWellFormed(s: Layout)
    requires RunningTrimmed(s)
    ensures WellFormed(Normalize(s))
  {
    hide Normalize, NormalizeTerminalIds, WellFormed, Trim, Trimmed;
    forall a, b ensures !Clash(s.runningTerminalIds, NormalizeTerminalIds(s.terminalIds), a, b) {
      if a in s.runningTerminalIds && b in s.runningTerminalIds {
        TrimmedIsFixed(a);
        TrimmedIsFixed(b);
      }
    }
    NormalizeMakesWellFormed(s);
  }

  lemma TrimmedIsFixed(t: string)
    requires Trimmed(t)
    ensures Trim(t) == t
  {
    TrimFixes(t);
  }

  lemma WellFormedIsNormal(s: Layout)
    requires WellFormed(s)
    ensures Normalize(s) == s && RunningTrimmed(s)
  {
    hide Normalize, GroupsOk, MemberIds, NoDuplicates, Trimmed;
    NormalizeFixes(s);
  }

  lemma UpsertKeepsWellFormed(s: Layout, t: string, mode: Mode)
    requires WellFormed(s)
    ensures WellFormed(Upsert(s, t, mode))
  {
    hide Normalize, WellFormed, RemoveTerminal, Destination, UniqueGroupId, InsertAfter, Trim, Trimmed;
    WellFormedIsNormal(s);
    forall r: Layout | r.runningTerminalIds == s.runningTerminalIds ensures WellFormed(Normalize(r)) {
      AssembledIsWellFormed(r);
    }
  }

  lemma SetActiveKeepsWellFormed(s: Layout, t: string)
    requires WellFormed(s)
    ensures WellFormed(SetActive(s, t))
  {
    hide Normalize, IdsOk, GroupsOk, MemberIds, NoDuplicates;
    WellFormedIsNormal(s);
    if t in s.terminalIds {
      var i := GroupIndexOf(s.terminalGroups, t);
      if i < |s.terminalGroups| { assert s.terminalGroups[i] in s.terminalGroups; }
    }
  }

  lemma SetOpenIsWellFormed(s: Layout, open: bool)
    requires RunningTrimmed(s)
    ensures WellFormed(SetOpen(s, open))
  {
    hide Normalize, IdsOk, GroupsOk, MemberIds, NoDuplicates;
    AssembledIsWellFormed(s);
  }

  lemma CloseKeepsWellFormed(s: Layout, t: string)
    requires WellFormed(s)
    ensures WellFormed(Close(s, t))
  {
    hide Normalize, WellFormed, DropTerminal, Without, FirstIndex, Trimmed;
    WellFormedIsNormal(s);
    DefaultIsCoherent();
    WithoutMembers(s.runningTerminalIds, t);
    forall r: Layout | r.runningTerminalIds == Without(s.runningTerminalIds, t) ensures WellFormed(Normalize(r)) {
      AssembledIsWellFormed(r);
    }
  }

  lemma SettersKeepWellFormed(s: Layout, height: Number, t: string, running: bool)
    requires WellFormed(s)
    ensures WellFormed(SetHeight(s, height)) && WellFormed(SetActivity(s, t, running))
  {
    hide Normalize, IdsOk, GroupsOk, MemberIds, HasGroup, Without;
    WellFormedIsNormal(s);
    WithoutIsDistinct(s.runningTerminalIds, t);
    WithoutMembers(s.runningTerminalIds, t);
  }

  lemma EnsureKeepsWellFormed(s: Layout, t: string, open: Option<bool>, active: Option<bool>)
    requires WellFormed(s)
    ensures WellFormed(Ensure(s, t, open, active)) && WellFormed(Start(s, t))
  {
    hide Normalize, WellFormed, Upsert, SetActive, SetOpen, Trimmed;
    var s1 := if t !in s.terminalIds then Upsert(s, t, New) else s;
    UpsertKeepsWellFormed(s, t, New);
    WellFormedIsNormal(s1);
    SetActiveKeepsWellFormed(s1, t);
    WellFormedIsNormal(SetActive(s1, t));
    var s3 := if active == Some(false)
              then s1.(activeTerminalId := s.activeTerminalId, activeTerminalGroupId := s.activeTerminalGroupId)
              else SetActive(s1, t);
    SetOpenIsWellFormed(s3, true);
    SetOpenIsWellFormed(SetActive(s1, t), true);
    WellFormedIsNormal(SetOpen(s3, true));
    WellFormedIsNormal(SetOpen(SetActive(s1, t), true));
    AssembledIsWellFormed(s3);
  }

  // Runs

  datatype Action =
    | Opened(open: bool)
    | Resized(height: Number)
    | SplitInto(terminalId: string)
    | Created(terminalId: string)
    | Ensured(terminalId: string, opening: Option<bool>, activating: Option<bool>)
    | Activated(terminalId: string)
    | Closed(terminalId: string)
    | ActivityChanged(terminalId: string, running: bool)
    | Started(terminalId: string)
    | Cleared

  function Step(s: Layout, a: Action): Layout {
    match a
    case Opened(open) => SetOpen(s, open)
    case Resized(height) => SetHeight(s, height)
    case SplitInto(t) => Upsert(s, t, Split)
    case Created(t) => Upsert(s, t, New)
    case Ensured(t, open, active) => Ensure(s, t, open, active)
    case Activated(t) => SetActive(s, t)
    case Closed(t) => Close(s, t)
    case ActivityChanged(t, running) => SetActivity(s, t, running)
    case Started(t) => Start(s, t)
    case Cleared => DEFAULT_LAYOUT
  }

  /** The ids an action may add are usable. */
  predicate Admissible(a: Action) {
    match a
    case SplitInto(t) => Usable(t)
    case Created(t) => Usable(t)
    case Ensured(t, _, _) => Usable(t)
    case Started(t) => Usable(t)
    case _ => true
  }

  /** Every transition keeps a layout well-formed, whatever ids it is given. */
  lemma StepKeepsWellFormed(s: Layout, a: Action)
    requires WellFormed(s)
    ensures WellFormed(Step(s, a)) && Normalize(Step(s, a)) == Step(s, a)
  {
    hide Normalize, WellFormed, SetOpen, SetHeight, Upsert, Ensure, SetActive, Close, SetActivity, Start;
    WellFormedIsNormal(s);
    match a {
      case Opened(open) => SetOpenIsWellFormed(s, open);
      case Resized(height) => SettersKeepWellFormed(s, height, [], true);
      case SplitInto(t) => UpsertKeepsWellFormed(s, t, Split);
      case Created(t) => UpsertKeepsWellFormed(s, t, New);
      case Ensured(t, open, active) => EnsureKeepsWellFormed(s, t, open, active);
      case Activated(t) => SetActiveKeepsWellFormed(s, t);
      case Closed(t) => CloseKeepsWellFormed(s, t);
      case ActivityChanged(t, running) => SettersKeepWellFormed(s, NotFinite, t, running);
      case Started(t) => EnsureKeepsWellFormed(s, t, None, None);
      case Cleared => DefaultIsCoherent();
    }
    WellFormedIsNormal(Step(s, a));
  }

  /** Every transition keeps a layout coherent. */
  lemma StepKeepsCoherence(s: Layout, a: Action)
    requires Coherent(s) && Admissible(a)
    ensures Coherent(Step(s, a)) && Normalize(Step(s, a)) == Step(s, a)
  {
    hide Normalize, Coherent, Usable, SetOpen, SetHeight, Upsert, Ensure, SetActive, Close, SetActivity, Start;
    match a {
      case Opened(open) => SimpleSettersKeepCoherence(s, open, NotFinite);
      case Resized(height) => SimpleSettersKeepCoherence(s, true, height);
      case SplitInto(t) => UpsertKeepsCoherence(s, t, Split);
      case Created(t) => UpsertKeepsCoherence(s, t, New);
      case Ensured(t, open, active) => EnsureKeepsCoherence(s, t, open, active);
      case Activated(t) => SetActiveKeepsCoherence(s, t);
      case Closed(t) => CloseKeepsCoherence(s, t);
      case ActivityChanged(t, running) => SetActivityKeepsCoherence(s, t, running);
      case Started(t) => StartKeepsCoherence(s, t);
      case Cleared => DefaultIsCoherent();
    }
    CoherentIsNormal(Step(s, a));
  }

  function Run(s: Layout, actions: seq<Action>): Layout
    decreases |actions|
  {
    if actions == [] then s else Run(Step(s, actions[0]), actions[1..])
  }

  lemma {:induction false} RunKeepsCoherence(s: Layout, actions: seq<Action>)
    requires Coherent(s) && forall a | a in actions :: Admissible(a)
    ensures Coherent(Run(s, actions))
    decreases |actions|
  {
    hide Coherent, Step, Admissible;
    if actions != [] {
      assert Admissible(actions[0]);
      StepKeepsCoherence(s, actions[0]);
      RunKeepsCoherence(Step(s, actions[0]), actions[1..]);
    }
  }

  /** Every layout reachable from the default one by usable ids is coherent. */
  lemma ReachableIsCoherent(actions: seq<Action>)
    requires forall a | a in actions :: Admissible(a)
    ensures Coherent(Run(DEFAULT_LAYOUT, actions))
  {
    hide Coherent, Run, Admissible;
    DefaultIsCoherent();
    RunKeepsCoherence(DEFAULT_LAYOUT, actions);
  }

  /** With an id that is not trimmed the active group may lack the active terminal: creating ` x`
      lists and groups `x`, makes its group active, and leaves `default` the active terminal. */
  lemma SpacedIsIncoherent()
    ensures var r := Upsert(DEFAULT_LAYOUT, " x", New);
            WellFormed(r) && !Coherent(r) && r.terminalIds == [DEFAULT_ID, "x"] && r.activeTerminalId == DEFAULT_ID
  {
    hide WellFormed, Normalize, Trim, Trimmed, UniqueGroupId;
    DefaultIsCoherent();
    WellFormedIsNormal(DEFAULT_LAYOUT);
    UpsertKeepsWellFormed(DEFAULT_LAYOUT, " x", New);
    SpacedTexts();
    var g, h := DEFAULT_LAYOUT.terminalGroups[0], Group("group- x", [" x"]);
    var n := DEFAULT_LAYOUT.(terminalOpen := true, terminalIds := [DEFAULT_ID, " x"], activeTerminalId := " x",
                             terminalGroups := [g, h], activeTerminalGroupId := "group- x");
    assert GroupIndexOf([g], " x") == 1;
    assert GroupIds([g]) == {g.id};
    UniqueWhenFree("group- x", {g.id});
    assert DEFAULT_LAYOUT.terminalGroups == [g] && [DEFAULT_ID] + [" x"] == [DEFAULT_ID, " x"] && [g] + [h] == [g, h];
    assert FallbackGroupId(" x") == "group- x" && RemoveTerminal([g], " x") == [g];
    assert Upsert(DEFAULT_LAYOUT, " x", New) == Normalize(n);
    SpacedNormalized(n, g, h);
  }

  lemma SpacedTexts()
    ensures Trim(" x") == "x" && Trim(DEFAULT_ID) == DEFAULT_ID && Trim("group- x") == "group- x"
    ensures Trim(FallbackGroupId(DEFAULT_ID)) == FallbackGroupId(DEFAULT_ID)
  {
    TrimFixes("x");
    TrimFixes(DEFAULT_ID);
    TrimFixes("group- x");
    TrimFixes(FallbackGroupId(DEFAULT_ID));
    assert " x"[1..] == "x";
    assert TrimStart(" x") == TrimStart("x") == "x";
  }

  lemma UniqueWhenFree(base: string, used: set<string>)
    requires base !in used
    ensures UniqueGroupId(base, used) == base
  {
    CandidateText(base, 0);
  }

  lemma SpacedIds()
    ensures NormalizeTerminalIds([DEFAULT_ID, " x"]) == [DEFAULT_ID, "x"]
    ensures NormalizeGroupIds([DEFAULT_ID]) == [DEFAULT_ID] && NormalizeGroupIds([" x"]) == ["x"]
  {
    hide Trim;
    SpacedTexts();
    assert TrimmedNonEmpty([" x"]) == ["x"] && TrimmedNonEmpty([DEFAULT_ID]) == [DEFAULT_ID];
    assert [DEFAULT_ID, " x"][1..] == [" x"];
    var ids := [DEFAULT_ID, "x"];
    assert TrimmedNonEmpty([DEFAULT_ID, " x"]) == ids;
    assert ids[..1] == [DEFAULT_ID] && ids[..0] == [];
    assert Dedup([DEFAULT_ID]) == [DEFAULT_ID];
    assert Dedup(ids) == ids;
  }

  lemma SpacedGroups(g: Group, h: Group)
    requires g == Group(FallbackGroupId(DEFAULT_ID), [DEFAULT_ID]) && h == Group("group- x", [" x"])
    ensures NormalizeGroups([g, h], [DEFAULT_ID, "x"]) == [g, Group(h.id, ["x"])]
  {
    hide Trim, UniqueGroupId, NormalizeGroupIds, FallbackGroupId;
    SpacedTexts();
    SpacedIds();
    GroupIdsDifferHere(g, h);
    var ids, k := [DEFAULT_ID, "x"], Group(h.id, ["x"]);
    UniqueWhenFree(g.id, {});
    UniqueWhenFree(h.id, {g.id});
    assert MemberIds([]) == {} && GroupIds([]) == {};
    assert Unassigned([DEFAULT_ID], ids, {}) == [DEFAULT_ID];
    assert TakeGroup([], g, ids) == [g];
    assert MemberIds([g]) == {DEFAULT_ID} && GroupIds([g]) == {g.id};
    assert "x" in ids && Unassigned(["x"], ids, {DEFAULT_ID}) == ["x"];
    assert TakeGroup([g], h, ids) == [g, k];
    assert [g, h][1..] == [h] && [h][1..] == [];
    TakenInTurn(g, h, ids);
    var groups := [g, k];
    assert g in groups && k in groups;
    assert DEFAULT_ID in g.terminalIds && "x" in k.terminalIds;
    assert DEFAULT_ID in MemberIds(groups) && "x" in MemberIds(groups);
    assert AddLeftovers(groups, ids, MemberIds(groups)) == groups;
  }

  lemma TakenInTurn(g: Group, h: Group, ids: seq<string>)
    ensures TakeGroups([], [g, h], ids) == TakeGroup(TakeGroup([], g, ids), h, ids)
  {
    hide TakeGroup;
    assert [g, h][1..] == [h] && [h][1..] == [];
    var one := TakeGroup([], g, ids);
    assert TakeGroups(one, [h], ids) == TakeGroups(TakeGroup(one, h, ids), [], ids);
  }

  lemma GroupIdsDifferHere(g: Group, h: Group)
    requires g == Group(FallbackGroupId(DEFAULT_ID), [DEFAULT_ID]) && h == Group("group- x", [" x"])
    ensures g.id != h.id && g.id != [] && h.id != []
  {
    assert g.id[6] == 'd' && h.id[6] == ' ';
  }

  lemma SpacedNormalized(n: Layout, g: Group, h: Group)
    requires n.terminalIds == [DEFAULT_ID, " x"] && n.terminalGroups == [g, h] && n.activeTerminalId == " x"
    requires g == Group(FallbackGroupId(DEFAULT_ID), [DEFAULT_ID]) && h == Group("group- x", [" x"])
    requires n.activeTerminalGroupId == h.id
    ensures var r := Normalize(n);
            && r.terminalIds == [DEFAULT_ID, "x"] && r.activeTerminalId == DEFAULT_ID
            && !Holds(r.terminalGroups, r.activeTerminalGroupId, r.activeTerminalId)
  {
    hide NormalizeTerminalIds, NormalizeGroups, FallbackGroupId;
    SpacedIds();
    SpacedGroups(g, h);
    GroupIdsDifferHere(g, h);
    var k := Group(h.id, ["x"]);
    assert k in [g, k];
  }

  lemma {:induction false} RunKeepsWellFormed(s: Layout, actions: seq<Action>)
    requires WellFormed(s)
    ensures WellFormed(Run(s, actions))
    decreases |actions|
  {
    hide WellFormed, Step;
    if actions != [] {
      StepKeepsWellFormed(s, actions[0]);
      RunKeepsWellFormed(Step(s, actions[0]), actions[1..]);
    }
  }

  /** Every layout reachable from the default one is well-formed, whatever ids were given. */
  lemma ReachableIsWellFormed(actions: seq<Action>)
    ensures WellFormed(Run(DEFAULT_LAYOUT, actions))
  {
    hide WellFormed, Run;
    DefaultIsCoherent();
    RunKeepsWellFormed(DEFAULT_LAYOUT, actions);
  }
}
