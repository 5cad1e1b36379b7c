/** The client side of the event protocol: gap detection, deferral, snapshot and replay recovery,
    and the bounded retry policy. */
module OrchestrationRecovery {
  import opened Text
  import opened Sorting

  datatype Reason = Bootstrap | SequenceGap | Resubscribe | ReplayFailed

  datatype Kind = Snapshot | Replay

  datatype Phase = Phase(kind: Kind, reason: Reason)

  datatype Verdict = Ignore | Defer | Recover | Apply

  datatype Event = Event(sequence: int, payload: string)

  datatype Completion = Completion(replayMadeProgress: bool, shouldReplay: bool)

  datatype State = State(latestSequence: int, highestObservedSequence: int, bootstrapped: bool, pendingReplay: bool,
                         inFlight: Option<Phase>, replayStartSequence: Option<int>)

  const INITIAL := State(0, 0, false, false, None, None)

  function Max(a: int, b: int): int {
    if a >= b then a else b
  }

  // Transitions

  function ClassifyEvent(st: State, sequence: int): (State, Verdict) {
    var observed := st.(highestObservedSequence := Max(st.highestObservedSequence, sequence));
    if sequence <= st.latestSequence then (observed, Ignore)
    else if !st.bootstrapped || st.inFlight.Some? then (observed.(pendingReplay := true), Defer)
    else if sequence != st.latestSequence + 1 then (observed.(pendingReplay := true), Recover)
    else (observed, Apply)
  }

  function Above(latest: int, events: seq<Event>): seq<Event> {
    if events == [] then []
    else if events[0].sequence > latest then [events[0]] + Above(latest, events[1..])
    else Above(latest, events[1..])
  }

  function BySequence(a: Event, b: Event): int {
    a.sequence - b.sequence
  }

  /** The events of a batch beyond `latest`, in order of sequence. */
  function NextEvents(latest: int, events: seq<Event>): (r: seq<Event>) {
    Sort(BySequence, Above(latest, events))
  }

  function MarkApplied(st: State, events: seq<Event>): (State, seq<Event>) {
    var next := NextEvents(st.latestSequence, events);
    if next == [] then (st, [])
    else
      var latest := next[|next| - 1].sequence;
      (st.(latestSequence := latest, highestObservedSequence := Max(st.highestObservedSequence, latest)), next)
  }

  function BeginSnapshot(st: State, reason: Reason): (State, bool) {
    if st.inFlight.Some? then (st.(pendingReplay := true), false)
    else (st.(inFlight := Some(Phase(Snapshot, reason))), true)
  }

  function ReplayNeeded(st: State): bool {
    st.pendingReplay || st.highestObservedSequence > st.latestSequence
  }

  function CompleteSnapshot(st: State, snapshotSequence: int): (State, bool) {
    var latest := Max(st.latestSequence, snapshotSequence);
    var covered := st.(latestSequence := latest, highestObservedSequence := Max(st.highestObservedSequence, latest),
                       bootstrapped := true, inFlight := None);
    (covered.(pendingReplay := false), ReplayNeeded(covered))
  }

  function FailSnapshot(st: State): State {
    st.(inFlight := None)
  }

  function BeginReplay(st: State, reason: Reason): (State, bool) {
    if !st.bootstrapped || st.inFlight.Some? then (st.(pendingReplay := true), false)
    else (st.(pendingReplay := false, replayStartSequence := Some(st.latestSequence),
              inFlight := Some(Phase(Replay, reason))), true)
  }

  function CompleteReplay(st: State): (State, Completion) {
    var progress := st.replayStartSequence.Some? && st.latestSequence > st.replayStartSequence.value;
    (st.(replayStartSequence := None, inFlight := None, pendingReplay := false), Completion(progress, ReplayNeeded(st)))
  }

  function FailReplay(st: State): State {
    st.(replayStartSequence := None, bootstrapped := false, inFlight := None)
  }

  /** The coordinator object; each method is one transition. */
  class Coordinator {
    var latestSequence: int
    var highestObservedSequence: int
    var bootstrapped: bool
    var pendingReplay: bool
    var inFlight: Option<Phase>
    var replayStartSequence: Option<int>

    function GetState(): State
      reads this
    {
      State(latestSequence, highestObservedSequence, bootstrapped, pendingReplay, inFlight, replayStartSequence)
    }

    constructor ()
      ensures GetState() == INITIAL
    {
      latestSequence, highestObservedSequence := 0, 0;
      bootstrapped, pendingReplay := false, false;
      inFlight, replayStartSequence := None, None;
    }

    method ClassifyDomainEvent(sequence: int) returns (verdict: Verdict)
      modifies this
      ensures (GetState(), verdict) == ClassifyEvent(old(GetState()), sequence)
    {
      highestObservedSequence := Max(highestObservedSequence, sequence);
      if sequence <= latestSequence {
        return Ignore;
      }
      if !bootstrapped || inFlight.Some? {
        pendingReplay := true;
        return Defer;
      }
      if sequence != latestSequence + 1 {
        pendingReplay := true;
        return Recover;
      }
      return Apply;
    }

    method MarkEventBatchApplied(events: seq<Event>) returns (nextEvents: seq<Event>)
      modifies this
      ensures (GetState(), nextEvents) == MarkApplied(old(GetState()), events)
    {
      nextEvents := NextEvents(latestSequence, events);
      if nextEvents == [] {
        return;
      }
      latestSequence := nextEvents[|nextEvents| - 1].sequence;
      highestObservedSequence := Max(highestObservedSequence, latestSequence);
    }

    method BeginSnapshotRecovery(reason: Reason) returns (begun: bool)
      modifies this
      ensures (GetState(), begun) == BeginSnapshot(old(GetState()), reason)
    {
      if inFlight.Some? && inFlight.value.kind == Snapshot {
        pendingReplay := true;
        return false;
      }
      if inFlight.Some? && inFlight.value.kind == Replay {
        pendingReplay := true;
        return false;
      }
      inFlight := Some(Phase(Snapshot, reason));
      return true;
    }

    method ResolveReplayNeedAfterRecovery() returns (shouldReplay: bool)
      modifies this`pendingReplay
      ensures shouldReplay == ReplayNeeded(old(GetState()))
      ensures GetState() == old(GetState()).(pendingReplay := false)
    {
      var pendingReplayBeforeReset := pendingReplay;
      var observedAhead := highestObservedSequence > latestSequence;
      shouldReplay := pendingReplayBeforeReset || observedAhead;
      pendingReplay := false;
    }

    method CompleteSnapshotRecovery(snapshotSequence: int) returns (shouldReplay: bool)
      modifies this
      ensures (GetState(), shouldReplay) == CompleteSnapshot(old(GetState()), snapshotSequence)
    {
      latestSequence := Max(latestSequence, snapshotSequence);
      highestObservedSequence := Max(highestObservedSequence, latestSequence);
      bootstrapped := true;
      inFlight := None;
      shouldReplay := ResolveReplayNeedAfterRecovery();
    }

    method FailSnapshotRecovery()
      modifies this
      ensures GetState() == FailSnapshot(old(GetState()))
    {
      inFlight := None;
    }

    method BeginReplayRecovery(reason: Reason) returns (begun: bool)
      modifies this
      ensures (GetState(), begun) == BeginReplay(old(GetState()), reason)
    {
      if !bootstrapped || (inFlight.Some? && inFlight.value.kind == Snapshot) {
        pendingReplay := true;
        return false;
      }
      if inFlight.Some? && inFlight.value.kind == Replay {
        pendingReplay := true;
        return false;
      }
      pendingReplay := false;
      replayStartSequence := Some(latestSequence);
      inFlight := Some(Phase(Replay, reason));
      return true;
    }

    method CompleteReplayRecovery() returns (completion: Completion)
      modifies this
      ensures (GetState(), completion) == CompleteReplay(old(GetState()))
    {
      var replayMadeProgress := replayStartSequence.Some? && latestSequence > replayStartSequence.value;
      replayStartSequence := None;
      inFlight := None;
      var shouldReplay := ResolveReplayNeedAfterRecovery();
      completion := Completion(replayMadeProgress, shouldReplay);
    }

    method FailReplayRecovery()
      modifies this
      ensures GetState() == FailReplay(old(GetState()))
    {
      replayStartSequence := None;
      bootstrapped := false;
      inFlight := None;
    }
  }

  // Runs

  datatype Action =
    | Classified(sequence: int)
    | Marked(events: seq<Event>)
    | SnapshotBegun(reason: Reason)
    | SnapshotCompleted(sequence: int)
    | SnapshotFailed
    | ReplayBegun(reason: Reason)
    | ReplayCompleted
    | ReplayFailure

  function Next(st: State, a: Action): State {
    match a
    case Classified(sequence) => ClassifyEvent(st, sequence).0
    case Marked(events) => MarkApplied(st, events).0
    case SnapshotBegun(reason) => BeginSnapshot(st, reason).0
    case SnapshotCompleted(sequence) => CompleteSnapshot(st, sequence).0
    case SnapshotFailed => FailSnapshot(st)
    case ReplayBegun(reason) => BeginReplay(st, reason).0
    case ReplayCompleted => CompleteReplay(st).0
    case ReplayFailure => FailReplay(st)
  }

  function Run(st: State, actions: seq<Action>): State
    decreases |actions|
  {
    if actions == [] then st else Run(Next(st, actions[0]), actions[1..])
  }

  lemma {:induction false} AboveSpec(latest: int, events: seq<Event>)
    ensures forall e :: e in Above(latest, events) <==> e in events && e.sequence > latest
  {
    if events != [] { AboveSpec(latest, events[1..]); }
  }

  lemma NextEventsSpec(latest: int, events: seq<Event>)
    ensures forall e :: e in NextEvents(latest, events) <==> e in events && e.sequence > latest
    ensures SortedBy(BySequence, NextEvents(latest, events))
    ensures multiset(NextEvents(latest, events)) == multiset(Above(latest, events))
  {
    AboveSpec(latest, events);
    SortPermutes(BySequence, Above(latest, events));
    SortSorts(BySequence, Above(latest, events));
  }

  lemma StepMonotone(st: State, a: Action)
    requires st.latestSequence <= st.highestObservedSequence
    ensures var r := Next(st, a);
      && r.latestSequence <= r.highestObservedSequence
      && st.latestSequence <= r.latestSequence && st.highestObservedSequence <= r.highestObservedSequence
      && (a.Classified? ==> a.sequence <= r.highestObservedSequence)
  {
    if a.Marked? {
      NextEventsSpec(st.latestSequence, a.events);
      var next := NextEvents(st.latestSequence, a.events);
      if next != [] { assert next[|next| - 1] in next; }
    }
  }

  /** In every run the frontier stays at or below the highest sequence seen, both only grow, and
      every sequence ever classified is remembered. */
  lemma {:induction false} NothingObservedIsForgotten(st: State, actions: seq<Action>)
    requires st.latestSequence <= st.highestObservedSequence
    ensures var r := Run(st, actions);
      && r.latestSequence <= r.highestObservedSequence
      && st.latestSequence <= r.latestSequence && st.highestObservedSequence <= r.highestObservedSequence
      && forall a | a in actions && a.Classified? :: a.sequence <= r.highestObservedSequence
    decreases |actions|
  {
    hide Next;
    if actions != [] {
      StepMonotone(st, actions[0]);
      NothingObservedIsForgotten(Next(st, actions[0]), actions[1..]);
    }
  }

  /** A recovery that ends without asking for another replay has caught up with every sequence
      ever classified. */
  lemma CaughtUpOnCompletion(actions: seq<Action>, snapshotSequence: int)
    ensures var r := Run(INITIAL, actions);
      && (!CompleteReplay(r).1.shouldReplay ==>
            forall a | a in actions && a.Classified? :: a.sequence <= CompleteReplay(r).0.latestSequence)
      && (!CompleteSnapshot(r, snapshotSequence).1 ==>
            forall a | a in actions && a.Classified? :: a.sequence <= CompleteSnapshot(r, snapshotSequence).0.latestSequence)
  {
    hide Run;
    NothingObservedIsForgotten(INITIAL, actions);
  }

  // Deferred work is not lost

  /** The action was put off: an event deferred or sent to recovery, or a recovery refused. */
  predicate PutOff(st: State, a: Action) {
    match a
    case Classified(sequence) => ClassifyEvent(st, sequence).1 == Defer || ClassifyEvent(st, sequence).1 == Recover
    case SnapshotBegun(reason) => !BeginSnapshot(st, reason).1
    case ReplayBegun(reason) => !BeginReplay(st, reason).1
    case _ => false
  }

  predicate EndsRecovery(a: Action) {
    a.SnapshotCompleted? || a.SnapshotFailed? || a.ReplayCompleted? || a.ReplayFailure?
  }

  lemma {:induction false} PendingStays(st: State, actions: seq<Action>)
    requires st.inFlight.Some? && forall a | a in actions :: !EndsRecovery(a)
    ensures Run(st, actions).inFlight == st.inFlight
    ensures st.pendingReplay ==> Run(st, actions).pendingReplay
    decreases |actions|
  {
    hide NextEvents;
    if actions != [] {
      assert !EndsRecovery(actions[0]);
      PendingStays(Next(st, actions[0]), actions[1..]);
    }
  }

  lemma {:induction false} RunAppend(st: State, a: seq<Action>, b: seq<Action>)
    ensures Run(st, a + b) == Run(Run(st, a), b)
    decreases |a|
  {
    hide Next;
    if a == [] {
      assert a + b == b;
    } else {
      assert (a + b)[1..] == a[1..] + b;
      RunAppend(Next(st, a[0]), a[1..], b);
    }
  }

  /** Whatever is put off while a recovery is in flight makes its completion ask for a replay. */
  lemma PutOffForcesReplay(st: State, before: seq<Action>, a: Action, after: seq<Action>, snapshotSequence: int)
    requires st.inFlight.Some?
    requires forall x | x in before + [a] + after :: !EndsRecovery(x)
    requires PutOff(Run(st, before), a)
    ensures var r := Run(st, before + [a] + after);
      CompleteReplay(r).1.shouldReplay && CompleteSnapshot(r, snapshotSequence).1
  {
    hide Run, NextEvents;
    forall x | x in before ensures !EndsRecovery(x) { assert x in before + [a] + after; }
    forall x | x in after ensures !EndsRecovery(x) { assert x in before + [a] + after; }
    PendingStays(st, before);
    var mid := Next(Run(st, before), a);
    assert mid.pendingReplay && mid.inFlight.Some?;
    PendingStays(mid, after);
    RunAppend(st, before + [a], after);
    RunAppend(st, before, [a]);
    RunOne(Run(st, before), a);
  }

  lemma RunOne(st: State, a: Action)
    ensures Run(st, [a]) == Next(st, a)
  {
    assert [a][1..] == [];
  }

  // What the answers mean over a run

  /** The action takes up or settles whatever was put off. */
  predicate Clears(st: State, a: Action) {
    a.SnapshotCompleted? || a.ReplayCompleted? || (a.ReplayBegun? && BeginReplay(st, a.reason).1)
  }

  /** Something was put off, and nothing since has cleared it. */
  ghost predicate PutOffSince(actions: seq<Action>) {
    exists k :: 0 <= k < |actions| && PutOffAt(actions, k) && forall j | k < j < |actions| :: !ClearsAt(actions, j)
  }

  predicate PutOffAt(actions: seq<Action>, k: nat)
    requires k < |actions|
  {
    PutOff(Run(INITIAL, actions[..k]), actions[k])
  }

  predicate ClearsAt(actions: seq<Action>, k: nat)
    requires k < |actions|
  {
    Clears(Run(INITIAL, actions[..k]), actions[k])
  }

  lemma RunSnoc(st: State, actions: seq<Action>)
    requires actions != []
    ensures var n := |actions| - 1; Run(st, actions) == Next(Run(st, actions[..n]), actions[n])
  {
    hide Run, Next;
    var n := |actions| - 1;
    assert actions == actions[..n] + [actions[n]];
    RunAppend(st, actions[..n], [actions[n]]);
    RunOne(Run(st, actions[..n]), actions[n]);
  }

  lemma PendingStep(st: State, a: Action)
    ensures Next(st, a).pendingReplay <==> PutOff(st, a) || (st.pendingReplay && !Clears(st, a))
  {
    hide NextEvents;
  }

  lemma SameBefore(actions: seq<Action>, n: nat, k: nat)
    requires k < n <= |actions|
    ensures PutOffAt(actions[..n], k) == PutOffAt(actions, k) && ClearsAt(actions[..n], k) == ClearsAt(actions, k)
  {
    hide PutOff, Clears, Run;
    assert actions[..n][..k] == actions[..k];
  }

  /** A replay is pending exactly when something was put off since that was last cleared. */
  lemma {:induction false} PendingExactlyWhenPutOff(actions: seq<Action>)
    ensures Run(INITIAL, actions).pendingReplay <==> PutOffSince(actions)
    decreases |actions|
  {
    hide PutOff, Clears, Next, PutOffAt, ClearsAt;
    if actions != [] {
      var n := |actions| - 1;
      var front := actions[..n];
      PendingExactlyWhenPutOff(front);
      RunSnoc(INITIAL, actions);
      PendingStep(Run(INITIAL, front), actions[n]);
      LastAt(actions);
      forall k | 0 <= k < n ensures PutOffAt(front, k) == PutOffAt(actions, k) && ClearsAt(front, k) == ClearsAt(actions, k) {
        SameBefore(actions, n, k);
      }
      PutOffSnoc(actions, front);
    }
  }

  lemma LastAt(actions: seq<Action>)
    requires actions != []
    ensures var n := |actions| - 1; var st := Run(INITIAL, actions[..n]);
      PutOffAt(actions, n) == PutOff(st, actions[n]) && ClearsAt(actions, n) == Clears(st, actions[n])
  {}

  lemma PutOffSnoc(actions: seq<Action>, front: seq<Action>)
    requires actions != [] && front == actions[..|actions| - 1]
    requires forall k | 0 <= k < |front| :: PutOffAt(front, k) == PutOffAt(actions, k)
    requires forall k | 0 <= k < |front| :: ClearsAt(front, k) == ClearsAt(actions, k)
    ensures var n := |actions| - 1;
      PutOffSince(actions) <==> PutOffAt(actions, n) || (PutOffSince(front) && !ClearsAt(actions, n))
  {
    hide PutOffAt, ClearsAt;
    var n := |actions| - 1;
    if PutOffSince(front) && !ClearsAt(actions, n) {
      var k :| 0 <= k < n && PutOffAt(front, k) && forall j | k < j < n :: !ClearsAt(front, j);
      assert PutOffAt(actions, k);
    }
    if PutOffSince(actions) && !PutOffAt(actions, n) {
      var k :| 0 <= k < |actions| && PutOffAt(actions, k) && forall j | k < j < |actions| :: !ClearsAt(actions, j);
      assert PutOffAt(front, k);
    }
  }

  /** The highest sequence seen is the frontier, or that of some event classified. */
  lemma {:induction false} HighestWasSeen(actions: seq<Action>)
    ensures var r := Run(INITIAL, actions);
      r.highestObservedSequence == r.latestSequence ||
      (r.highestObservedSequence > r.latestSequence && Classified(r.highestObservedSequence) in actions)
    decreases |actions|
  {
    hide Next;
    if actions != [] {
      var n := |actions| - 1;
      HighestWasSeen(actions[..n]);
      RunSnoc(INITIAL, actions);
      HighestStep(Run(INITIAL, actions[..n]), actions[n]);
    }
  }

  lemma HighestStep(st: State, a: Action)
    requires st.latestSequence <= st.highestObservedSequence
    ensures var r := Next(st, a);
      && st.latestSequence <= r.latestSequence <= r.highestObservedSequence
      && (r.highestObservedSequence in {r.latestSequence, st.highestObservedSequence} || a == Classified(r.highestObservedSequence))
  {
    StepMonotone(st, a);
  }

  /** Some event that was classified lies above `latest`. */
  ghost predicate SeenAbove(actions: seq<Action>, latest: int) {
    exists sequence :: Classified(sequence) in actions && sequence > latest
  }

  /** A completed recovery asks for a replay exactly when something was put off since that was last
      cleared, or some event that was classified lies above the frontier it reached. */
  lemma ReplayAskedExactlyWhen(actions: seq<Action>, snapshotSequence: int)
    ensures var r := Run(INITIAL, actions);
      && (CompleteReplay(r).1.shouldReplay <==> PutOffSince(actions) || SeenAbove(actions, r.latestSequence))
      && (CompleteSnapshot(r, snapshotSequence).1 <==>
          PutOffSince(actions) || SeenAbove(actions, CompleteSnapshot(r, snapshotSequence).0.latestSequence))
      && CompleteSnapshot(r, snapshotSequence).0.latestSequence == Max(r.latestSequence, snapshotSequence)
  {
    hide Run, PutOffSince;
    NothingObservedIsForgotten(INITIAL, actions);
    HighestWasSeen(actions);
    PendingExactlyWhenPutOff(actions);
    var r := Run(INITIAL, actions);
    forall sequence | Classified(sequence) in actions ensures sequence <= r.highestObservedSequence {
      assert Classified(sequence).Classified?;
    }
  }

  /** At `k` a replay began, and nothing has ended or broken it off since. */
  predicate ReplayStartedAt(actions: seq<Action>, k: nat) {
    && k < |actions| && actions[k].ReplayBegun? && BeginsAt(actions, k)
    && forall j | k < j < |actions| :: !actions[j].ReplayCompleted? && !actions[j].ReplayFailure?
                                      && !(actions[j].ReplayBegun? && BeginsAt(actions, j))
  }

  /** A completed replay made progress exactly when one began that nothing has ended since, and the
      frontier is beyond where it was then. */
  lemma ProgressExactlyWhen(actions: seq<Action>)
    ensures var r := Run(INITIAL, actions);
      CompleteReplay(r).1.replayMadeProgress <==>
        exists k: nat :: ReplayStartedAt(actions, k) && r.latestSequence > Run(INITIAL, actions[..k]).latestSequence
  {
    hide Run, ReplayStartedAt;
    StartExactlyWhen(actions);
  }

  lemma {:induction false} StartExactlyWhen(actions: seq<Action>)
    ensures var r := Run(INITIAL, actions);
      && (forall k: nat | ReplayStartedAt(actions, k) :: r.replayStartSequence == Some(Run(INITIAL, actions[..k]).latestSequence))
      && (r.replayStartSequence.Some? ==> exists k: nat :: ReplayStartedAt(actions, k))
    decreases |actions|
  {
    hide Next, BeginsAt, Run;
    if actions == [] {
      NothingRun();
    } else {
      var n := |actions| - 1;
      var front := actions[..n];
      StartExactlyWhen(front);
      RunSnoc(INITIAL, actions);
      StartStep(actions);
      forall k: nat | k < n
        ensures BeginsAt(front, k) == BeginsAt(actions, k) && front[..k] == actions[..k]
      {
        BeginsBefore(actions, n, k);
      }
      assert forall k: nat | k < n && ReplayStartedAt(actions, k) :: ReplayStartedAt(front, k);
      if Run(INITIAL, actions).replayStartSequence.Some? {
        if actions[n].ReplayBegun? && BeginsAt(actions, n) {
          assert ReplayStartedAt(actions, n);
        } else {
          var k: nat :| ReplayStartedAt(front, k);
          assert ReplayStartedAt(actions, k);
        }
      }
    }
  }

  lemma NothingRun()
    ensures Run(INITIAL, []) == INITIAL
  {}

  lemma BeginsBefore(actions: seq<Action>, n: nat, k: nat)
    requires k < n <= |actions|
    ensures BeginsAt(actions[..n], k) == BeginsAt(actions, k) && actions[..n][..k] == actions[..k]
  {
    hide Run;
    assert actions[..n][..k] == actions[..k];
  }

  lemma StartStep(actions: seq<Action>)
    requires actions != []
    ensures var n := |actions| - 1; var st := Run(INITIAL, actions[..n]); var a := actions[n];
      Next(st, a).replayStartSequence ==
        if a.ReplayBegun? && BeginsAt(actions, n) then Some(st.latestSequence)
        else if a.ReplayCompleted? || a.ReplayFailure? then None else st.replayStartSequence
  {
    hide NextEvents, Run;
  }

  /** A snapshot was completed, and no replay has failed since. */
  ghost predicate SnapshotSince(actions: seq<Action>) {
    exists k :: 0 <= k < |actions| && actions[k].SnapshotCompleted? && forall j | k < j < |actions| :: !actions[j].ReplayFailure?
  }

  lemma SnapshotSnoc(actions: seq<Action>)
    requires actions != []
    ensures var n := |actions| - 1;
      SnapshotSince(actions) <==> actions[n].SnapshotCompleted? || (SnapshotSince(actions[..n]) && !actions[n].ReplayFailure?)
  {
    var n := |actions| - 1;
    var front := actions[..n];
    if k :| 0 <= k < n && front[k].SnapshotCompleted? && forall j | k < j < n :: !front[j].ReplayFailure? {
      assert actions[k].SnapshotCompleted? && forall j | k < j < n :: actions[j] == front[j];
    }
    if k :| 0 <= k < n && actions[k].SnapshotCompleted? && forall j | k < j < |actions| :: !actions[j].ReplayFailure? {
      assert front[k].SnapshotCompleted?;
    }
  }

  /** Snapshots make the coordinator ready for events until a replay fails. */
  lemma {:induction false} BootstrappedExactlyWhen(actions: seq<Action>)
    ensures Run(INITIAL, actions).bootstrapped <==> SnapshotSince(actions)
    decreases |actions|
  {
    hide Next, SnapshotSince;
    if actions == [] {
      NothingRun();
      NoSnapshotYet();
    } else {
      var n := |actions| - 1;
      BootstrappedExactlyWhen(actions[..n]);
      RunSnoc(INITIAL, actions);
      BootstrappedStep(Run(INITIAL, actions[..n]), actions[n]);
      SnapshotSnoc(actions);
    }
  }

  lemma NoSnapshotYet()
    ensures !SnapshotSince([])
  {}

  lemma BootstrappedStep(st: State, a: Action)
    ensures Next(st, a).bootstrapped <==> a.SnapshotCompleted? || (st.bootstrapped && !a.ReplayFailure?)
  {
    hide NextEvents;
  }

  /** The action begins a recovery where it is taken. */
  predicate BeginsAt(actions: seq<Action>, k: nat)
    requires k < |actions|
  {
    var st := Run(INITIAL, actions[..k]);
    match actions[k]
    case SnapshotBegun(reason) => BeginSnapshot(st, reason).1
    case ReplayBegun(reason) => BeginReplay(st, reason).1
    case _ => false
  }

  ghost predicate BegunSince(actions: seq<Action>) {
    exists k :: 0 <= k < |actions| && BeginsAt(actions, k) && forall j | k < j < |actions| :: !EndsRecovery(actions[j])
  }

  /** A recovery is in flight exactly when one has begun and none has ended since. A snapshot begins
      exactly when none is; a replay, exactly when none is and a snapshot has made the coordinator ready. */
  lemma {:induction false} InFlightExactlyWhen(actions: seq<Action>, reason: Reason)
    ensures var r := Run(INITIAL, actions);
      && (r.inFlight.Some? <==> BegunSince(actions))
      && (BeginSnapshot(r, reason).1 <==> !BegunSince(actions))
      && (BeginReplay(r, reason).1 <==> r.bootstrapped && !BegunSince(actions))
    decreases |actions|
  {
    hide Next;
    if actions != [] {
      var n := |actions| - 1;
      var front := actions[..n];
      InFlightExactlyWhen(front, reason);
      RunSnoc(INITIAL, actions);
      InFlightStep(actions);
      forall k | 0 <= k < n ensures BeginsAt(front, k) == BeginsAt(actions, k) { assert front[..k] == actions[..k]; }
      BegunSnoc(actions, front);
    }
  }

  lemma InFlightStep(actions: seq<Action>)
    requires actions != []
    ensures var n := |actions| - 1; var st := Run(INITIAL, actions[..n]);
      && (Next(st, actions[n]).inFlight.Some? <==> BeginsAt(actions, n) || (st.inFlight.Some? && !EndsRecovery(actions[n])))
  {
    hide NextEvents, Run;
  }

  lemma BegunSnoc(actions: seq<Action>, front: seq<Action>)
    requires actions != [] && front == actions[..|actions| - 1]
    requires forall k | 0 <= k < |front| :: BeginsAt(front, k) == BeginsAt(actions, k)
    ensures var n := |actions| - 1;
      BegunSince(actions) <==> BeginsAt(actions, n) || (BegunSince(front) && !EndsRecovery(actions[n]))
  {
    hide BeginsAt, EndsRecovery;
    var n := |actions| - 1;
    if BegunSince(front) && !EndsRecovery(actions[n]) {
      var k :| 0 <= k < n && BeginsAt(front, k) && forall j | k < j < n :: !EndsRecovery(front[j]);
      assert BeginsAt(actions, k);
    }
    if BegunSince(actions) && !BeginsAt(actions, n) {
      var k :| 0 <= k < |actions| && BeginsAt(actions, k) && forall j | k < j < |actions| :: !EndsRecovery(actions[j]);
      assert BeginsAt(front, k);
    }
  }

  // Every sequence is delivered exactly once

  /** `[low + 1, ..., high]` */
  function Range(low: int, high: int): seq<int> {
    if high <= low then [] else seq(high - low, i => low + 1 + i)
  }

  function Sequences(events: seq<Event>): (r: seq<int>)
    ensures |r| == |events| && forall i | 0 <= i < |r| :: r[i] == events[i].sequence
  {
    if events == [] then [] else [events[0].sequence] + Sequences(events[1..])
  }

  /** The sequences an action hands over: applied events in order, or all that a snapshot covers. */
  function Delivered(st: State, a: Action): seq<int> {
    match a
    case Marked(events) => Sequences(MarkApplied(st, events).1)
    case SnapshotCompleted(sequence) => Range(st.latestSequence, sequence)
    case _ => []
  }

  function Deliveries(st: State, actions: seq<Action>): seq<int>
    decreases |actions|
  {
    if actions == [] then [] else Delivered(st, actions[0]) + Deliveries(Next(st, actions[0]), actions[1..])
  }

  /** How far a batch reaches. */
  function Highest(latest: int, events: seq<Event>): int {
    if events == [] then latest else Max(events[0].sequence, Highest(latest, events[1..]))
  }

  /** The batch holds every integer above the frontier, up to its greatest sequence, once. */
  ghost predicate Gapless(latest: int, events: seq<Event>) {
    forall n: int | latest < n ::
      multiset(Sequences(events))[n] == if n <= Highest(latest, events) then 1 else 0
  }

  function CompareInts(a: int, b: int): int {
    a - b
  }

  lemma {:induction false} RangeCounts(low: int, high: int, n: int)
    requires low <= high
    ensures multiset(Range(low, high))[n] == if low < n <= high then 1 else 0
    decreases high - low
  {
    if low < high {
      RangeCounts(low, high - 1, n);
      assert Range(low, high) == Range(low, high - 1) + [high];
    } else {
      assert Range(low, high) == [];
    }
  }

  lemma {:induction false} AboveCounts(latest: int, events: seq<Event>, n: int)
    ensures multiset(Sequences(Above(latest, events)))[n] == if n > latest then multiset(Sequences(events))[n] else 0
  {
    if events != [] {
      var e, rest := events[0], events[1..];
      AboveCounts(latest, rest, n);
      if e.sequence > latest {
        assert Above(latest, events)[1..] == Above(latest, rest);
      }
    }
  }

  lemma {:induction false} SequencesCount(events: seq<Event>, n: int)
    ensures multiset(Sequences(events))[n] > 0 <==> exists e :: e in events && e.sequence == n
  {
    if events != [] {
      SequencesCount(events[1..], n);
      if multiset(Sequences(events[1..]))[n] > 0 {
        var e :| e in events[1..] && e.sequence == n;
        assert e in events;
      }
    }
  }

  lemma {:induction false} InsertedSequences(e: Event, s: seq<Event>)
    ensures multiset(Sequences(Insert(BySequence, e, s))) == multiset([e.sequence]) + multiset(Sequences(s))
  {
    if s == [] {
      assert Insert(BySequence, e, s) == [e];
      assert [e][1..] == [];
    } else if BySequence(e, s[0]) <= 0 {
      assert ([e] + s)[1..] == s;
    } else {
      InsertedSequences(e, s[1..]);
      var r := Insert(BySequence, e, s[1..]);
      assert Insert(BySequence, e, s) == [s[0]] + r;
      assert ([s[0]] + r)[1..] == r;
      assert Sequences([s[0]] + r) == [s[0].sequence] + Sequences(r);
    }
  }

  lemma {:induction false} SortedSequencesPermute(s: seq<Event>)
    ensures multiset(Sequences(Sort(BySequence, s))) == multiset(Sequences(s))
  {
    hide Insert;
    if s != [] {
      SortedSequencesPermute(s[1..]);
      InsertedSequences(s[0], Sort(BySequence, s[1..]));
    }
  }

  lemma {:induction false} HighestSpec(latest: int, events: seq<Event>)
    ensures latest <= Highest(latest, events)
    ensures forall e | e in events :: e.sequence <= Highest(latest, events)
    ensures Highest(latest, events) == latest || exists e :: e in events && e.sequence == Highest(latest, events)
  {
    if events != [] {
      HighestSpec(latest, events[1..]);
      if Highest(latest, events) != latest {
        if Highest(latest, events) == events[0].sequence {
          assert events[0] in events;
        } else {
          var e :| e in events[1..] && e.sequence == Highest(latest, events[1..]);
          assert e in events;
        }
      }
    }
  }

  /** Marking a batch moves the frontier to the highest sequence in it. */
  lemma MarkReaches(st: State, events: seq<Event>)
    ensures MarkApplied(st, events).0.latestSequence == Highest(st.latestSequence, events)
    ensures MarkApplied(st, events).1 == NextEvents(st.latestSequence, events)
  {
    hide NextEvents, Highest;
    var latest, next := st.latestSequence, NextEvents(st.latestSequence, events);
    NextEventsSpec(latest, events);
    HighestSpec(latest, events);
    if next == [] {
      forall e | e in events ensures e.sequence <= latest { assert e !in next; }
    } else {
      var last := next[|next| - 1];
      assert last in next && last in events;
      var e :| e in events && e.sequence == Highest(latest, events);
      assert e in next;
      var i :| 0 <= i < |next| && next[i] == e;
      assert i < |next| - 1 ==> BySequence(next[i], last) <= 0;
    }
  }

  lemma SortedSequences(events: seq<Event>)
    requires SortedBy(BySequence, events)
    ensures SortedBy(CompareInts, Sequences(events))
  {
    var s := Sequences(events);
    forall i, j | 0 <= i < j < |s| ensures CompareInts(s[i], s[j]) <= 0 {
      assert BySequence(events[i], events[j]) <= 0;
    }
  }

  lemma SortedIntsAreUnique(s: seq<int>, t: seq<int>)
    requires SortedBy(CompareInts, s) && SortedBy(CompareInts, t) && multiset(s) == multiset(t)
    ensures s == t
  {
    SortedUnique(CompareInts, s, t);
  }

  lemma NextCounts(latest: int, events: seq<Event>, n: int)
    ensures multiset(Sequences(NextEvents(latest, events)))[n] == if n > latest then multiset(Sequences(events))[n] else 0
  {
    hide Sequences, Above, Sort;
    SortedSequencesPermute(Above(latest, events));
    AboveCounts(latest, events, n);
  }

  /** A marked batch hands over exactly the next sequences, in order, precisely when it is gapless. */
  lemma MarkDeliversNext(st: State, events: seq<Event>)
    ensures Delivered(st, Marked(events)) == Range(st.latestSequence, Next(st, Marked(events)).latestSequence)
            <==> Gapless(st.latestSequence, events)
  {
    hide NextEvents, Highest, Above, Sequences, Range, MarkApplied;
    var latest, top := st.latestSequence, Highest(st.latestSequence, events);
    MarkReaches(st, events);
    HighestSpec(latest, events);
    GaplessIsRange(latest, events);
  }

  lemma GaplessIsRange(latest: int, events: seq<Event>)
    ensures Sequences(NextEvents(latest, events)) == Range(latest, Highest(latest, events)) <==> Gapless(latest, events)
  {
    hide NextEvents, Highest, Above, Sequences, Range;
    var top := Highest(latest, events);
    var next, range := Sequences(NextEvents(latest, events)), Range(latest, top);
    HighestSpec(latest, events);
    forall n
      ensures multiset(next)[n] == if n > latest then multiset(Sequences(events))[n] else 0
      ensures multiset(range)[n] == if latest < n <= top then 1 else 0
    {
      NextCounts(latest, events, n);
      RangeCounts(latest, top, n);
    }
    if Gapless(latest, events) {
      assert multiset(next) == multiset(range);
      NextEventsSpec(latest, events);
      SortedSequences(NextEvents(latest, events));
      RangeSorted(latest, top);
      SortedIntsAreUnique(next, range);
    }
  }

  lemma RangeSorted(low: int, high: int)
    ensures SortedBy(CompareInts, Range(low, high))
  {}

  lemma {:induction false} RangeAppend(a: int, b: int, c: int)
    requires a <= b <= c
    ensures Range(a, b) + Range(b, c) == Range(a, c)
  {}

  /** Every marked batch of the run is gapless where it is marked. */
  ghost predicate GaplessRun(st: State, actions: seq<Action>)
    decreases |actions|
  {
    actions != [] ==>
      && (actions[0].Marked? ==> Gapless(st.latestSequence, actions[0].events))
      && GaplessRun(Next(st, actions[0]), actions[1..])
  }

  lemma StepDelivers(st: State, a: Action)
    requires st.latestSequence <= st.highestObservedSequence
    ensures Delivered(st, a) == Range(st.latestSequence, Next(st, a).latestSequence)
            <==> (a.Marked? ==> Gapless(st.latestSequence, a.events))
  {
    hide NextEvents;
    if a.Marked? {
      MarkDeliversNext(st, a.events);
    }
  }

  /** What one action hands over lies above the old frontier and at or below the new one. */
  lemma StepDeliversWithin(st: State, a: Action, x: int)
    requires x in Delivered(st, a)
    ensures st.latestSequence < x <= Next(st, a).latestSequence
  {
    hide NextEvents, Highest;
    if a.Marked? {
      MarkReaches(st, a.events);
      HighestSpec(st.latestSequence, a.events);
      NextEventsSpec(st.latestSequence, a.events);
      var next := NextEvents(st.latestSequence, a.events);
      var i :| 0 <= i < |next| && Sequences(next)[i] == x;
      assert next[i] in next;
    }
  }

  lemma {:induction false} RunDeliversAbove(st: State, actions: seq<Action>, x: int)
    requires st.latestSequence <= st.highestObservedSequence && x in Deliveries(st, actions)
    ensures st.latestSequence < x
    decreases |actions|
  {
    hide Next, Delivered;
    var st' := Next(st, actions[0]);
    StepMonotone(st, actions[0]);
    if x in Delivered(st, actions[0]) {
      StepDeliversWithin(st, actions[0], x);
    } else {
      RunDeliversAbove(st', actions[1..], x);
    }
  }

  /** A range cut where its values pass `mid` is cut into two ranges. */
  lemma CutRange(d: seq<int>, rest: seq<int>, low: int, mid: int, high: int)
    requires low <= mid <= high && d + rest == Range(low, high)
    requires (forall x | x in d :: x <= mid) && (forall x | x in rest :: mid < x)
    ensures d == Range(low, mid) && rest == Range(mid, high)
  {
    var all := Range(low, high);
    assert |d| + |rest| == high - low;
    if d != [] {
      var last := d[|d| - 1];
      assert last in d && last == (d + rest)[|d| - 1] == low + |d|;
    }
    if rest != [] {
      var first := rest[0];
      assert first in rest && first == (d + rest)[|d|] == low + 1 + |d|;
    }
    assert |d| == mid - low;
    assert d == all[..|d|] && rest == all[|d|..];
  }

  /** Over any run, the sequences applied or covered by snapshots are, in order, all from the
      first frontier to the last, none twice and none skipped, exactly when every marked batch is
      gapless where it is marked. */
  lemma {:induction false} DeliveredExactlyOnce(st: State, actions: seq<Action>)
    requires st.latestSequence <= st.highestObservedSequence
    ensures Deliveries(st, actions) == Range(st.latestSequence, Run(st, actions).latestSequence) <==> GaplessRun(st, actions)
    decreases |actions|
  {
    hide Next, Delivered, Range, Gapless;
    if actions == [] {
      EmptyRange(st.latestSequence);
    } else {
      var a, rest := actions[0], actions[1..];
      var st' := Next(st, a);
      var end := Run(st', rest).latestSequence;
      StepMonotone(st, a);
      NothingObservedIsForgotten(st', rest);
      DeliveredExactlyOnce(st', rest);
      StepDelivers(st, a);
      RangeAppend(st.latestSequence, st'.latestSequence, end);
      if Deliveries(st, actions) == Range(st.latestSequence, end) {
        forall x | x in Delivered(st, a) ensures x <= st'.latestSequence { StepDeliversWithin(st, a, x); }
        forall x | x in Deliveries(st', rest) ensures st'.latestSequence < x { RunDeliversAbove(st', rest, x); }
        CutRange(Delivered(st, a), Deliveries(st', rest), st.latestSequence, st'.latestSequence, end);
      }
    }
  }

  lemma EmptyRange(a: int)
    ensures Range(a, a) == []
  {}

  /** From the start: exactly 1, 2, ..., latestSequence. */
  lemma DeliveredFromTheStart(actions: seq<Action>)
    ensures var latest := Run(INITIAL, actions).latestSequence;
      latest >= 0 && (Deliveries(INITIAL, actions) == seq(latest, i => i + 1) <==> GaplessRun(INITIAL, actions))
  {
    hide Run, Deliveries, GaplessRun;
    NothingObservedIsForgotten(INITIAL, actions);
    DeliveredExactlyOnce(INITIAL, actions);
  }

  /** An event classified as applicable and marked at once is a gapless batch. */
  lemma AppliedEventIsGapless(st: State, e: Event)
    requires ClassifyEvent(st, e.sequence).1 == Apply
    ensures Gapless(ClassifyEvent(st, e.sequence).0.latestSequence, [e])
  {
    assert Sequences([e]) == [e.sequence];
    assert Highest(st.latestSequence, [e]) == e.sequence by { assert [e][1..] == []; }
  }

  /** What each verdict means: an event is ignored exactly when the frontier has passed it; else it is
      deferred exactly when no replay could begin, applied exactly when it is the next one, and sent to
      recovery exactly when a replay would begin and the event alone would leave a gap. */
  lemma VerdictMeans(st: State, e: Event, reason: Reason)
    ensures var (after, verdict) := ClassifyEvent(st, e.sequence);
      && (verdict == Ignore <==> e.sequence <= st.latestSequence)
      && (verdict == Defer <==> e.sequence > st.latestSequence && !BeginReplay(after, reason).1)
      && (verdict == Recover <==> BeginReplay(after, reason).1 && !Gapless(st.latestSequence, [e]))
      && (verdict == Apply <==>
          e.sequence > st.latestSequence && BeginReplay(after, reason).1 && Gapless(st.latestSequence, [e]))
      && after.latestSequence == st.latestSequence
  {
    OneIsGapless(st.latestSequence, e);
  }

  lemma OneIsGapless(latest: int, e: Event)
    ensures Gapless(latest, [e]) <==> e.sequence <= latest + 1
  {
    assert Sequences([e]) == [e.sequence];
    assert Highest(latest, [e]) == Max(e.sequence, latest) by { assert [e][1..] == []; }
    if e.sequence > latest + 1 {
      assert multiset(Sequences([e]))[latest + 1] == 0;
    }
  }

  /** Over a gapless run from the start, an event is ignored exactly when it was delivered before. */
  lemma IgnoredExactlyWhenDelivered(actions: seq<Action>, sequence: int)
    requires GaplessRun(INITIAL, actions) && sequence >= 1
    ensures ClassifyEvent(Run(INITIAL, actions), sequence).1 == Ignore <==> sequence in Deliveries(INITIAL, actions)
  {
    hide Run, Deliveries, GaplessRun;
    DeliveredExactlyOnce(INITIAL, actions);
    var latest := Run(INITIAL, actions).latestSequence;
    if 1 <= sequence <= latest { assert Range(0, latest)[sequence - 1] == sequence; }
  }

  /** Marking the same applicable event twice in one batch would hand it over twice. */
  lemma RepeatedEventIsNotGapless(e: Event)
    requires e.sequence == 1
    ensures !Gapless(INITIAL.latestSequence, [e, e])
    ensures Delivered(INITIAL, Marked([e, e])) == [1, 1]
  {
    assert [e, e][1..] == [e] && [e][1..] == [];
    assert Above(0, [e]) == [e];
    assert Above(0, [e, e]) == [e, e];
    assert NextEvents(0, [e, e]) == [e, e] by {
      SortFixesSorted(BySequence, [e, e]);
    }
    MarkDeliversNext(INITIAL, [e, e]);
    assert Range(0, 1) == [1];
  }
}
