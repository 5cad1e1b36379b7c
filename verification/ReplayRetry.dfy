/** The replay retry policy: it cannot go on forever, and it backs off exponentially. */
module ReplayRetry {
  import opened Text
  import opened OrchestrationRecovery

  datatype Tracker = Tracker(attempts: int, latestSequence: int, highestObservedSequence: int)

  datatype Decision = Decision(shouldRetry: bool, delayMs: int, tracker: Option<Tracker>)

  const STOP := Decision(false, 0, None)

  function Pow2(n: nat): nat {
    if n == 0 then 1 else 2 * Pow2(n - 1)
  }

  function DeriveReplayRetryDecision(previous: Option<Tracker>, completion: Completion, latest: int, highest: int,
                                     baseDelayMs: int, maxNoProgressRetries: int): Decision
    requires previous.Some? ==> previous.value.attempts >= 0
  {
    if !completion.shouldReplay then STOP
    else if completion.replayMadeProgress then Decision(true, 0, None)
    else
      var sameFrontier := previous.Some? && previous.value.latestSequence == latest
                          && previous.value.highestObservedSequence == highest;
      var attempts := if sameFrontier then previous.value.attempts + 1 else 1;
      if attempts > maxNoProgressRetries then STOP
      else Decision(true, baseDelayMs * Pow2(attempts - 1), Some(Tracker(attempts, latest, highest)))
  }

  function Attempts(tracker: Option<Tracker>): int {
    if tracker.Some? then tracker.value.attempts else 0
  }

  /** What a decision leaves behind: a tracker for the state it was made in, or none. */
  predicate Fits(tracker: Option<Tracker>, st: State, maxRetries: nat) {
    && st.latestSequence <= st.highestObservedSequence && st.replayStartSequence.None?
    && (tracker.Some? ==>
          && 1 <= tracker.value.attempts <= maxRetries
          && tracker.value.latestSequence == st.latestSequence
          && tracker.value.highestObservedSequence == st.highestObservedSequence)
  }

  /** One round: whatever happens up to the next completed replay, and the decision after it. */
  function Round(tracker: Option<Tracker>, st: State, actions: seq<Action>, baseDelayMs: int, maxRetries: nat): (State, Decision)
    requires Fits(tracker, st, maxRetries)
  {
    var (after, completion) := CompleteReplay(Run(st, actions));
    (after, DeriveReplayRetryDecision(tracker, completion, after.latestSequence, after.highestObservedSequence,
                                      baseDelayMs, maxRetries))
  }

  /** A replay counted as progress started at or above the frontier the round began with. */
  predicate ReplayStartsAbove(floor: int, st: State) {
    st.latestSequence >= floor && (st.replayStartSequence.Some? ==> st.replayStartSequence.value >= floor)
  }

  lemma {:induction false} ReplayStartStays(floor: int, st: State, actions: seq<Action>)
    requires st.latestSequence <= st.highestObservedSequence && ReplayStartsAbove(floor, st)
    ensures ReplayStartsAbove(floor, Run(st, actions))
    decreases |actions|
  {
    hide NextEvents, MarkApplied;
    if actions != [] {
      StepMonotone(st, actions[0]);
      if actions[0].Marked? { MarkKeepsReplayStart(st, actions[0].events); }
      ReplayStartStays(floor, Next(st, actions[0]), actions[1..]);
    }
  }

  lemma MarkKeepsReplayStart(st: State, events: seq<Event>)
    ensures MarkApplied(st, events).0.replayStartSequence == st.replayStartSequence
  {
    hide NextEvents;
  }

  ghost predicate Lower(l: int, h: int, a: int, l': int, h': int, a': int) {
    l' < l || (l' == l && (h' < h || (h' == h && a' < a)))
  }

  /** Every decision to retry strictly lowers (bound - latest, bound - highest, retries left),
      whatever else the coordinator did in between. */
  lemma RetryMakesProgress(tracker: Option<Tracker>, st: State, actions: seq<Action>, baseDelayMs: int, maxRetries: nat, bound: int)
    requires Fits(tracker, st, maxRetries)
    ensures var (after, d) := Round(tracker, st, actions, baseDelayMs, maxRetries);
      && st.latestSequence <= after.latestSequence <= after.highestObservedSequence
      && st.highestObservedSequence <= after.highestObservedSequence
      && (d.shouldRetry ==> Fits(d.tracker, after, maxRetries))
      && (d.shouldRetry ==>
            Lower(bound - st.latestSequence, bound - st.highestObservedSequence, maxRetries - Attempts(tracker),
                  bound - after.latestSequence, bound - after.highestObservedSequence, maxRetries - Attempts(d.tracker)))
  {
    hide Run, Pow2;
    NothingObservedIsForgotten(st, actions);
    ReplayStartStays(st.latestSequence, st, actions);
  }

  // Termination of the retry loop

  function Rounds(tracker: Option<Tracker>, st: State, rounds: seq<seq<Action>>, baseDelayMs: int, maxRetries: nat): (State, bool)
    requires Fits(tracker, st, maxRetries)
    decreases |rounds|
  {
    if rounds == [] then (st, true)
    else
      RetryMakesProgress(tracker, st, rounds[0], baseDelayMs, maxRetries, 0);
      var (after, d) := Round(tracker, st, rounds[0], baseDelayMs, maxRetries);
      if d.shouldRetry then Rounds(d.tracker, after, rounds[1..], baseDelayMs, maxRetries) else (after, false)
  }

  /** The measure as one number: each component weighs more than all later ones together. */
  function Rank(l: int, h: int, a: int, width: int, depth: int): int {
    (l * width + h) * depth + a
  }

  lemma RankDrops(l: int, h: int, a: int, l': int, h': int, a': int, width: int, depth: int)
    requires Lower(l, h, a, l', h', a')
    requires 0 <= h < width && 0 <= h' < width && 0 <= a < depth && 0 <= a' < depth
    ensures Rank(l', h', a', width, depth) < Rank(l, h, a, width, depth)
  {
    if l' < l {
      Scale(l' + 1, l, width);
      assert (l' + 1) * width == l' * width + width;
      assert l' * width + h' + 1 <= l * width + h;
      Scale(l' * width + h' + 1, l * width + h, depth);
      assert (l' * width + h' + 1) * depth == (l' * width + h') * depth + depth;
    } else if h' < h {
      Scale(l * width + h' + 1, l * width + h, depth);
      assert (l * width + h' + 1) * depth == (l * width + h') * depth + depth;
    }
  }

  lemma Scale(x: int, y: int, k: int)
    requires x <= y && 0 <= k
    ensures x * k <= y * k
  {
    assert (y - x) * k >= 0;
  }

  lemma RankNonNegative(l: int, h: int, a: int, width: int, depth: int)
    requires 0 <= l && 0 <= h && 0 <= a && 0 <= width && 0 <= depth
    ensures Rank(l, h, a, width, depth) >= 0
  {
    Scale(0, l, width);
    Scale(0, l * width + h, depth);
  }

  /** If no sequence above `bound` is ever observed, the number of consecutive retries is bounded
      by the rank of the starting point. */
  lemma {:induction false} RetriesAreBounded(tracker: Option<Tracker>, st: State, rounds: seq<seq<Action>>, baseDelayMs: int,
                                             maxRetries: nat, bound: int, width: int)
    requires Fits(tracker, st, maxRetries) && bound - st.highestObservedSequence < width
    requires var r := Rounds(tracker, st, rounds, baseDelayMs, maxRetries); r.1 && r.0.highestObservedSequence <= bound
    ensures |rounds| <= Rank(bound - st.latestSequence, bound - st.highestObservedSequence, maxRetries - Attempts(tracker), width, maxRetries + 1)
    decreases |rounds|
  {
    hide Run, Round, Rank;
    if rounds == [] {
      RankNonNegative(bound - st.latestSequence, bound - st.highestObservedSequence, maxRetries - Attempts(tracker), width, maxRetries + 1);
    } else {
      var (after, d) := Round(tracker, st, rounds[0], baseDelayMs, maxRetries);
      RetryMakesProgress(tracker, st, rounds[0], baseDelayMs, maxRetries, bound);
      RoundsMonotone(d.tracker, after, rounds[1..], baseDelayMs, maxRetries);
      RetriesAreBounded(d.tracker, after, rounds[1..], baseDelayMs, maxRetries, bound, width);
      RankDrops(bound - st.latestSequence, bound - st.highestObservedSequence, maxRetries - Attempts(tracker),
                bound - after.latestSequence, bound - after.highestObservedSequence, maxRetries - Attempts(d.tracker),
                width, maxRetries + 1);
    }
  }

  lemma {:induction false} RoundsMonotone(tracker: Option<Tracker>, st: State, rounds: seq<seq<Action>>, baseDelayMs: int, maxRetries: nat)
    requires Fits(tracker, st, maxRetries)
    ensures st.highestObservedSequence <= Rounds(tracker, st, rounds, baseDelayMs, maxRetries).0.highestObservedSequence
    decreases |rounds|
  {
    hide Run, Round;
    if rounds != [] {
      RetryMakesProgress(tracker, st, rounds[0], baseDelayMs, maxRetries, 0);
      var (after, d) := Round(tracker, st, rounds[0], baseDelayMs, maxRetries);
      if d.shouldRetry { RoundsMonotone(d.tracker, after, rounds[1..], baseDelayMs, maxRetries); }
    }
  }

  // The decision after a history of completions

  /** A completed replay, and the frontier it left. */
  datatype Completed = Completed(completion: Completion, latest: int, highest: int)

  /** The decision after a history, each made with the tracker the one before left behind. */
  function Decide(h: seq<Completed>, baseDelayMs: int, maxRetries: nat): (d: Decision)
    ensures d.tracker.Some? ==> d.tracker.value.attempts >= 1
  {
    if h == [] then STOP
    else
      var last := h[|h| - 1];
      DeriveReplayRetryDecision(Decide(h[..|h| - 1], baseDelayMs, maxRetries).tracker, last.completion, last.latest, last.highest,
                                baseDelayMs, maxRetries)
  }

  predicate Fruitless(c: Completed) {
    c.completion.shouldReplay && !c.completion.replayMadeProgress
  }

  /** How many completions at the end of the history were fruitless at one and the same frontier. */
  function Streak(h: seq<Completed>): nat {
    var n := |h| - 1;
    if h == [] || !Fruitless(h[n]) then 0
    else if n > 0 && Fruitless(h[n - 1]) && h[n - 1].latest == h[n].latest && h[n - 1].highest == h[n].highest
    then 1 + Streak(h[..n])
    else 1
  }

  /** As long as everything before was retried: a replay is retried exactly when one is still asked for
      and it made progress or not more than `maxRetries` were fruitless in a row at this frontier. After
      progress at once, otherwise with a delay that doubles with every fruitless one. */
  lemma {:induction false} DecisionFollowsStreak(h: seq<Completed>, baseDelayMs: int, maxRetries: nat)
    requires h != [] && forall k | 0 < k < |h| :: Decide(h[..k], baseDelayMs, maxRetries).shouldRetry
    ensures var last, d := h[|h| - 1].completion, Decide(h, baseDelayMs, maxRetries);
      && (d.shouldRetry <==> last.shouldReplay && (last.replayMadeProgress || Streak(h) <= maxRetries))
      && d.delayMs == (if d.shouldRetry && !last.replayMadeProgress then baseDelayMs * Pow2(Streak(h) - 1) else 0)
      && (d.shouldRetry ==> d.tracker == (if last.replayMadeProgress then None
                                          else Some(Tracker(Streak(h), h[|h| - 1].latest, h[|h| - 1].highest))))
  {
    hide Pow2;
    var n := |h| - 1;
    if n > 0 {
      var front := h[..n];
      assert Decide(front, baseDelayMs, maxRetries).shouldRetry;
      forall k | 0 < k < n ensures Decide(front[..k], baseDelayMs, maxRetries).shouldRetry { assert front[..k] == h[..k]; }
      DecisionFollowsStreak(front, baseDelayMs, maxRetries);
      assert front[n - 1] == h[n - 1];
    }
  }

  // Back-off at a frozen frontier

  /** The tracker and the total delay after `k` fruitless completions at one frontier. */
  function Frozen(k: nat, latest: int, highest: int, baseDelayMs: int, maxRetries: nat): (r: (Option<Tracker>, int))
    ensures r.0.Some? ==> r.0.value.attempts >= 0
  {
    if k == 0 then (None, 0)
    else
      var (tracker, total) := Frozen(k - 1, latest, highest, baseDelayMs, maxRetries);
      var d := DeriveReplayRetryDecision(tracker, Completion(false, true), latest, highest, baseDelayMs, maxRetries);
      (d.tracker, total + d.delayMs)
  }

  /** Exactly `maxRetries` fruitless completions at one frontier are retried; the delays double
      each time, and together they never exceed base * (2^maxRetries - 1). */
  lemma {:induction false} FrozenBackoff(k: nat, latest: int, highest: int, baseDelayMs: nat, maxRetries: nat)
    requires k <= maxRetries
    ensures var (tracker, total) := Frozen(k, latest, highest, baseDelayMs, maxRetries);
      && total == baseDelayMs * (Pow2(k) - 1) <= baseDelayMs * (Pow2(maxRetries) - 1)
      && Attempts(tracker) == k && (k > 0 ==> tracker == Some(Tracker(k, latest, highest)))
      && (DeriveReplayRetryDecision(tracker, Completion(false, true), latest, highest, baseDelayMs, maxRetries).shouldRetry
          <==> k < maxRetries)
  {
    hide Pow2;
    PowMonotone(k, maxRetries);
    Scale(Pow2(k) - 1, Pow2(maxRetries) - 1, baseDelayMs);
    if k == 0 {
      PowStep(0);
    } else {
      FrozenBackoff(k - 1, latest, highest, baseDelayMs, maxRetries);
      PowStep(k - 1);
      assert baseDelayMs * (2 * Pow2(k - 1) - 1) == baseDelayMs * (Pow2(k - 1) - 1) + baseDelayMs * Pow2(k - 1);
    }
  }

  lemma PowStep(k: nat)
    ensures Pow2(0) == 1 && Pow2(k + 1) == 2 * Pow2(k)
  {}

  lemma {:induction false} PowMonotone(k: nat, m: nat)
    requires k <= m
    ensures 1 <= Pow2(k) <= Pow2(m)
    decreases m
  {
    if m > 0 {
      PowMonotone(if k < m then k else m - 1, m - 1);
    }
  }
}
