/** Collapsing the updates of one tool call into one work log entry (`apps/web/src/session-logic.ts`). */
module WorkLog {
  import opened Text
  import opened Sequences

  datatype Entry = Entry(id: string, createdAt: string, caption: string, tone: string, activityKind: string,
                         detail: Option<string>, command: Option<string>, rawCommand: Option<string>,
                         changedFiles: Option<seq<string>>, toolTitle: Option<string>, itemType: Option<string>,
                         requestKind: Option<string>, collapseKey: Option<string>, toolCallId: Option<string>)

  predicate IsCompleted(e: Entry) {
    e.activityKind == "tool.completed"
  }

  predicate IsToolStep(e: Entry) {
    e.activityKind == "tool.updated" || e.activityKind == "tool.completed"
  }

  function Title(e: Entry): string {
    if e.toolTitle.Some? then e.toolTitle.value else e.caption
  }

  /** `shouldCollapseToolLifecycleEntries`; `compact` is `normalizeCompactToolLabel`. */
  predicate ShouldCollapse(compact: string -> string, previous: Entry, next: Entry) {
    && IsToolStep(previous) && IsToolStep(next) && !IsCompleted(previous)
    && (|| (previous.collapseKey.Some? && previous.collapseKey == next.collapseKey)
        || (previous.toolCallId.Some? && next.toolCallId.None? && previous.itemType == next.itemType
            && compact(Title(previous)) == compact(Title(next))))
  }

  function Files(e: Entry): seq<string> {
    if e.changedFiles.Some? then e.changedFiles.value else []
  }

  /** `mergeDerivedWorkLogEntries` */
  function Merge(previous: Entry, next: Entry): Entry {
    var changedFiles := Dedup(Files(previous) + Files(next));
    next.(detail := OrElse(next.detail, previous.detail),
          command := OrElse(next.command, previous.command),
          rawCommand := OrElse(next.rawCommand, previous.rawCommand),
          changedFiles := if changedFiles != [] then Some(changedFiles) else OrElse(next.changedFiles, previous.changedFiles),
          toolTitle := OrElse(next.toolTitle, previous.toolTitle),
          itemType := OrElse(next.itemType, previous.itemType),
          requestKind := OrElse(next.requestKind, previous.requestKind),
          collapseKey := OrElse(next.collapseKey, previous.collapseKey),
          toolCallId := OrElse(next.toolCallId, previous.toolCallId))
  }

  /** A run merged from its first entry to its last. */
  function Merged(run: seq<Entry>): Entry
    requires run != []
  {
    if |run| == 1 then run[0] else Merge(Merged(run[..|run| - 1]), run[|run| - 1])
  }

  lemma MergedNext(run: seq<Entry>, e: Entry)
    requires run != []
    ensures Merged(run + [e]) == Merge(Merged(run), e)
  {
    assert (run + [e])[..|run|] == run;
  }

  predicate AllFull(runs: seq<seq<Entry>>) {
    forall k | 0 <= k < |runs| :: runs[k] != []
  }

  /** The next entry joins the run before it or begins its own. */
  function NextRuns(compact: string -> string, runs: seq<seq<Entry>>, e: Entry): (after: seq<seq<Entry>>)
    requires AllFull(runs)
    ensures AllFull(after) && after != []
  {
    if runs != [] && ShouldCollapse(compact, Merged(runs[|runs| - 1]), e) then
      runs[..|runs| - 1] + [runs[|runs| - 1] + [e]]
    else runs + [[e]]
  }

  /** Cutting the log into runs of entries that collapse onto each other. */
  function Runs(compact: string -> string, entries: seq<Entry>): (runs: seq<seq<Entry>>)
    ensures AllFull(runs)
  {
    if entries == [] then []
    else NextRuns(compact, Runs(compact, entries[..|entries| - 1]), entries[|entries| - 1])
  }

  function MergedRuns(runs: seq<seq<Entry>>): (merged: seq<Entry>)
    requires AllFull(runs)
    ensures |merged| == |runs| && forall k | 0 <= k < |runs| :: merged[k] == Merged(runs[k])
  {
    if runs == [] then [] else MergedRuns(runs[..|runs| - 1]) + [Merged(runs[|runs| - 1])]
  }

  /** Merging the runs and then looking at the next entry is what the loop does. */
  lemma NextMerged(compact: string -> string, runs: seq<seq<Entry>>, e: Entry)
    requires AllFull(runs)
    ensures var merged, n := MergedRuns(runs), |runs| - 1;
            MergedRuns(NextRuns(compact, runs, e)) ==
              if merged != [] && ShouldCollapse(compact, merged[n], e) then merged[..n] + [Merge(merged[n], e)]
              else merged + [e]
  {
    hide Merge, ShouldCollapse;
    var after := NextRuns(compact, runs, e);
    var n := |after| - 1;
    if runs != [] && ShouldCollapse(compact, Merged(runs[|runs| - 1]), e) {
      MergedNext(runs[n], e);
      assert after[..n] == runs[..n];
    } else {
      assert Merged([e]) == e;
      assert after[..n] == runs;
    }
  }

  lemma RunsNext(compact: string -> string, entries: seq<Entry>, k: nat)
    requires k < |entries|
    ensures Runs(compact, entries[..k + 1]) == NextRuns(compact, Runs(compact, entries[..k]), entries[k])
  {
    assert entries[..k + 1][..k] == entries[..k];
  }

  /** `collapseDerivedWorkLogEntries`: every run of the log becomes one entry. */
  method CollapseDerivedWorkLogEntries(compact: string -> string, entries: seq<Entry>) returns (collapsed: seq<Entry>)
    ensures collapsed == MergedRuns(Runs(compact, entries))
  {
    hide AllFull, Merge, NextRuns, ShouldCollapse;
    collapsed := [];
    var k := 0;
    assert entries[..0] == [] && MergedRuns(Runs(compact, [])) == [];
    while k < |entries|
      invariant 0 <= k <= |entries|
      invariant collapsed == MergedRuns(Runs(compact, entries[..k]))
    {
      var entry := entries[k];
      RunsNext(compact, entries, k);
      NextMerged(compact, Runs(compact, entries[..k]), entry);
      k := k + 1;
      var last := |collapsed| - 1;
      if collapsed != [] && ShouldCollapse(compact, collapsed[last], entry) {
        collapsed := collapsed[..last] + [Merge(collapsed[last], entry)];
        continue;
      }
      collapsed := collapsed + [entry];
    }
    assert entries[..k] == entries;
  }

  // What the runs are

  function Flatten(runs: seq<seq<Entry>>): seq<Entry> {
    if runs == [] then [] else Flatten(runs[..|runs| - 1]) + runs[|runs| - 1]
  }

  /** Only the last entry of a run may be a completed one, and one entry of any other kind is a
      run of its own. */
  predicate IsRun(run: seq<Entry>) {
    && run != []
    && (forall j | 0 <= j < |run| - 1 :: IsToolStep(run[j]) && !IsCompleted(run[j]))
    && (|run| > 1 ==> IsToolStep(run[|run| - 1]))
  }

  lemma MergedKind(run: seq<Entry>)
    requires run != []
    ensures Merged(run).activityKind == run[|run| - 1].activityKind && Merged(run).id == run[|run| - 1].id
  {}

  lemma RunGrows(compact: string -> string, run: seq<Entry>, e: Entry)
    requires IsRun(run) && ShouldCollapse(compact, Merged(run), e)
    ensures IsRun(run + [e])
  {
    hide Merged;
    MergedKind(run);
  }

  ghost predicate Maximal(compact: string -> string, runs: seq<seq<Entry>>)
    requires AllFull(runs)
  {
    forall k | 0 <= k < |runs| - 1 :: !ShouldCollapse(compact, Merged(runs[k]), runs[k + 1][0])
  }

  /** The runs are the log cut up, not reordered: no run goes on after a completed entry, and no run
      could have been longer. */
  ghost predicate Cuts(compact: string -> string, runs: seq<seq<Entry>>, entries: seq<Entry>) {
    && Flatten(runs) == entries && AllFull(runs) && Maximal(compact, runs)
    && forall k | 0 <= k < |runs| :: IsRun(runs[k])
  }

  lemma NextRunsCut(compact: string -> string, runs: seq<seq<Entry>>, entries: seq<Entry>, e: Entry)
    requires Cuts(compact, runs, entries)
    ensures Cuts(compact, NextRuns(compact, runs, e), entries + [e])
  {
    hide Merged, ShouldCollapse;
    var after := NextRuns(compact, runs, e);
    var n := |after| - 1;
    if runs != [] && ShouldCollapse(compact, Merged(runs[|runs| - 1]), e) {
      RunGrows(compact, runs[n], e);
      assert after[..n] == runs[..n];
      Associative(Flatten(runs[..n]), runs[n], [e]);
    } else {
      assert IsRun([e]);
      assert after[..n] == runs;
    }
  }

  lemma {:induction false} RunsCutTheLog(compact: string -> string, entries: seq<Entry>)
    ensures Cuts(compact, Runs(compact, entries), entries)
  {
    if entries == [] {
      assert Runs(compact, entries) == [];
    } else {
      hide NextRuns, Cuts;
      var front, e := entries[..|entries| - 1], entries[|entries| - 1];
      RunsCutTheLog(compact, front);
      NextRunsCut(compact, Runs(compact, front), front, e);
      assert entries == front + [e];
    }
  }

  // Nothing is lost

  function AllFiles(entries: seq<Entry>): seq<string> {
    if entries == [] then [] else AllFiles(entries[..|entries| - 1]) + Files(entries[|entries| - 1])
  }

  lemma MergedFiles(previous: Entry, next: Entry)
    ensures Files(Merge(previous, next)) == Dedup(Files(previous) + Files(next))
  {
    DedupMembers(Files(previous) + Files(next));
    if Files(previous) + Files(next) != [] {
      assert (Files(previous) + Files(next))[0] in Dedup(Files(previous) + Files(next));
    }
  }

  /** The files of an entry pushed onto or merged into a list. */
  lemma FilesJoin(files: seq<string>, before: seq<string>, next: seq<string>, all: seq<string>)
    requires Dedup(files + before) == Dedup(all)
    ensures Dedup(files + Dedup(before + next)) == Dedup(all + next)
  {
    DedupAbsorbsRight(files, before + next);
    Associative(files, before, next);
    DedupAbsorbsLeft(files + before, next);
    DedupAbsorbsLeft(all, next);
  }

  lemma AllFilesPush(entries: seq<Entry>, e: Entry)
    ensures AllFiles(entries + [e]) == AllFiles(entries) + Files(e)
  {
    assert (entries + [e])[..|entries|] == entries;
  }

  /** Every changed file of the log is still listed, in order of first appearance. */
  lemma {:induction false} FilesAreKept(compact: string -> string, entries: seq<Entry>)
    ensures Dedup(AllFiles(MergedRuns(Runs(compact, entries)))) == Dedup(AllFiles(entries))
  {
    hide ShouldCollapse, Merge, Dedup, Files, Merged, NextRuns;
    if entries != [] {
      var front, e := entries[..|entries| - 1], entries[|entries| - 1];
      var merged := MergedRuns(Runs(compact, front));
      FilesAreKept(compact, front);
      NextMerged(compact, Runs(compact, front), e);
      var n := |merged| - 1;
      if merged != [] && ShouldCollapse(compact, merged[n], e) {
        assert AllFiles(merged) == AllFiles(merged[..n]) + Files(merged[n]);
        MergedFiles(merged[n], e);
        AllFilesPush(merged[..n], Merge(merged[n], e));
        FilesJoin(AllFiles(merged[..n]), Files(merged[n]), Files(e), AllFiles(front));
      } else {
        AllFilesPush(merged, e);
        DedupAbsorbsLeft(AllFiles(merged), Files(e));
        DedupAbsorbsLeft(AllFiles(front), Files(e));
      }
    }
  }

  /** The last value a run gives to an optional field. */
  function LastPresent<T>(field: Entry -> Option<T>, run: seq<Entry>): Option<T> {
    if run == [] then None
    else OrElse(field(run[|run| - 1]), LastPresent(field, run[..|run| - 1]))
  }

  /** A collapsed entry shows its last step, completed by whatever earlier steps alone knew. */
  lemma {:induction false} MergedShowsLatest(run: seq<Entry>)
    requires run != []
    ensures var merged, last := Merged(run), run[|run| - 1];
            && merged.id == last.id && merged.createdAt == last.createdAt && merged.caption == last.caption
            && merged.tone == last.tone && merged.activityKind == last.activityKind
            && merged.detail == LastPresent((e: Entry) => e.detail, run)
            && merged.command == LastPresent((e: Entry) => e.command, run)
            && merged.rawCommand == LastPresent((e: Entry) => e.rawCommand, run)
            && merged.toolTitle == LastPresent((e: Entry) => e.toolTitle, run)
            && merged.itemType == LastPresent((e: Entry) => e.itemType, run)
            && merged.requestKind == LastPresent((e: Entry) => e.requestKind, run)
            && merged.collapseKey == LastPresent((e: Entry) => e.collapseKey, run)
            && merged.toolCallId == LastPresent((e: Entry) => e.toolCallId, run)
  {
    if |run| == 1 {
      assert run[..0] == [];
    } else {
      MergedShowsLatest(run[..|run| - 1]);
    }
  }

  // Which steps make a run

  /** The title a run shows: the last tool title of its steps, else the caption of the last one. */
  function ShownTitle(run: seq<Entry>): string
    requires run != []
  {
    Or(LastPresent((e: Entry) => e.toolTitle, run), run[|run| - 1].caption)
  }

  /** The next step of a tool call that is still running: it carries the key that the run knew last, or
      it knows no call where the run does, and is of the same item type and title. */
  predicate Joins(compact: string -> string, run: seq<Entry>, e: Entry)
    requires run != []
  {
    && run[|run| - 1].activityKind == "tool.updated" && e.activityKind in {"tool.updated", "tool.completed"}
    && var key := LastPresent((x: Entry) => x.collapseKey, run);
       if key.Some? && e.collapseKey == key then true
       else
         && LastPresent((x: Entry) => x.toolCallId, run) != None && e.toolCallId == None
         && e.itemType == LastPresent((x: Entry) => x.itemType, run)
         && compact(if e.toolTitle.Some? then e.toolTitle.value else e.caption) == compact(ShownTitle(run))
  }

  lemma CollapsesExactlyWhen(compact: string -> string, run: seq<Entry>, e: Entry)
    requires run != []
    ensures ShouldCollapse(compact, Merged(run), e) <==> Joins(compact, run, e)
  {
    hide Merged, LastPresent;
    MergedShowsLatest(run);
  }

  /** In a run every step joins the ones before it. */
  ghost predicate AllJoin(compact: string -> string, run: seq<Entry>) {
    forall j | 0 < j < |run| :: Joins(compact, run[..j], run[j])
  }

  ghost predicate AreJoined(compact: string -> string, runs: seq<seq<Entry>>)
    requires AllFull(runs)
  {
    && (forall k | 0 <= k < |runs| :: AllJoin(compact, runs[k]))
    && (forall k | 0 <= k < |runs| - 1 :: !Joins(compact, runs[k], runs[k + 1][0]))
  }

  lemma NextJoined(compact: string -> string, runs: seq<seq<Entry>>, e: Entry)
    requires AllFull(runs) && AreJoined(compact, runs)
    ensures AreJoined(compact, NextRuns(compact, runs, e))
  {
    hide Joins, ShouldCollapse, Merged, AllJoin;
    var after, n := NextRuns(compact, runs, e), |runs| - 1;
    OneJoins(compact, e);
    if runs != [] {
      CollapsesExactlyWhen(compact, runs[n], e);
      if Joins(compact, runs[n], e) {
        LongerJoins(compact, runs[n], e);
        assert after == runs[..n] + [runs[n] + [e]];
      } else {
        assert after == runs + [[e]];
      }
    }
  }

  /** The runs of the log are what joins: each step the ones before it in its run, and the first of a run
      not the run before. */
  lemma {:induction false} RunsAreJoined(compact: string -> string, entries: seq<Entry>)
    ensures AreJoined(compact, Runs(compact, entries))
  {
    hide NextRuns, Joins;
    if entries != [] {
      var front := entries[..|entries| - 1];
      RunsAreJoined(compact, front);
      NextJoined(compact, Runs(compact, front), entries[|entries| - 1]);
    }
  }

  lemma OneJoins(compact: string -> string, e: Entry)
    ensures AllJoin(compact, [e])
  {}

  lemma LongerJoins(compact: string -> string, run: seq<Entry>, e: Entry)
    requires run != [] && AllJoin(compact, run) && Joins(compact, run, e)
    ensures AllJoin(compact, run + [e])
  {
    hide Joins;
    var all := run + [e];
    forall j | 0 < j < |all| ensures Joins(compact, all[..j], all[j]) {
      if j < |run| { assert all[..j] == run[..j]; } else { assert all[..j] == run; }
    }
  }

  function CompletedCount(entries: seq<Entry>): nat {
    if entries == [] then 0
    else CompletedCount(entries[..|entries| - 1]) + if IsCompleted(entries[|entries| - 1]) then 1 else 0
  }

  lemma CompletedPush(entries: seq<Entry>, e: Entry)
    ensures CompletedCount(entries + [e]) == CompletedCount(entries) + if IsCompleted(e) then 1 else 0
  {
    assert (entries + [e])[..|entries|] == entries;
  }

  /** No completed tool call is swallowed by another. */
  lemma {:induction false} CompletedAreKept(compact: string -> string, entries: seq<Entry>)
    ensures CompletedCount(MergedRuns(Runs(compact, entries))) == CompletedCount(entries)
  {
    hide Merged, NextRuns, IsToolStep;
    if entries != [] {
      var front, e := entries[..|entries| - 1], entries[|entries| - 1];
      var merged := MergedRuns(Runs(compact, front));
      CompletedAreKept(compact, front);
      NextMerged(compact, Runs(compact, front), e);
      var n := |merged| - 1;
      if merged != [] && ShouldCollapse(compact, merged[n], e) {
        CompletedPush(merged[..n], Merge(merged[n], e));
      } else {
        CompletedPush(merged, e);
      }
    }
  }
}
