/** The startup gate: commands that arrive before the server is ready are queued, run one at a
    time by a worker once it is ready, and fail together when startup fails. Clients, the worker
    and the one signaller interleave freely; every step below is one atomic action of one of them. */
module CommandGate {
  import opened Text
  import opened Sequences

  type CommandId = nat

  /** How startup ended. */
  datatype Outcome = Ready | Broken(error: string)

  /** How one command ended: with its effect's own exit, whatever that is, or with the startup error. */
  datatype Exit = Succeeded(value: int) | FailedWith(cause: string) | StartupFailed(error: string)

  datatype Client =
    | SawPending                 // read "pending", has not offered yet
    | Waiting                    // offered, awaits its result
    | RunningDirect              // read "ready", runs its own effect
    | Settled(exit: Exit)

  datatype Worker =
    | Idle
    | Awaiting(command: CommandId)
    | Running(command: CommandId)
    | Finishing(command: CommandId, exit: Exit)

  /** The signaller writes the readiness state first and completes the latch second. */
  datatype Signaller = NotStarted | WroteState(outcome: Outcome) | Finished(outcome: Outcome)

  /** The shared cells, every party's position, and what happened so far: commands in the order
      they were offered, effects in the order they were started, results in the order they were
      delivered by the worker. */
  datatype Gate = Gate(
    readiness: Option<Outcome>,
    latch: Option<Outcome>,
    queue: seq<CommandId>,
    clients: map<CommandId, Client>,
    worker: Worker,
    signaller: Signaller,
    offered: seq<CommandId>,
    startedQueued: seq<CommandId>,
    startedDirect: seq<CommandId>,
    settledQueued: seq<CommandId>)

  const INITIAL := Gate(None, None, [], map[], Idle, NotStarted, [], [], [], [])

  datatype Step =
    | ReadState(command: CommandId)
    | Offer(command: CommandId)
    | FinishDirect(command: CommandId, exit: Exit)
    | Take
    | Proceed
    | FinishQueued(exit: Exit)
    | Settle
    | WriteState(outcome: Outcome)
    | WriteLatch

  predicate Enabled(g: Gate, s: Step) {
    match s
    case ReadState(c) => c !in g.clients
    case Offer(c) => c in g.clients && g.clients[c].SawPending?
    case FinishDirect(c, exit) => c in g.clients && g.clients[c].RunningDirect?
    case Take => g.worker.Idle? && g.queue != []
    case Proceed => g.worker.Awaiting? && g.latch.Some?
    case FinishQueued(exit) => g.worker.Running?
    case Settle => g.worker.Finishing?
    case WriteState(outcome) => g.signaller.NotStarted?
    case WriteLatch => g.signaller.WroteState?
  }

  function Next(g: Gate, s: Step): Gate
    requires Enabled(g, s)
  {
    match s
    case ReadState(c) =>
      (match g.readiness
       case None => g.(clients := g.clients[c := SawPending])
       case Some(Ready) => g.(clients := g.clients[c := RunningDirect], startedDirect := g.startedDirect + [c])
       case Some(Broken(error)) => g.(clients := g.clients[c := Settled(StartupFailed(error))]))
    case Offer(c) => g.(clients := g.clients[c := Waiting], queue := g.queue + [c], offered := g.offered + [c])
    case FinishDirect(c, exit) => g.(clients := g.clients[c := Settled(exit)])
    case Take => g.(worker := Awaiting(g.queue[0]), queue := g.queue[1..])
    case Proceed =>
      (match g.latch.value
       case Ready => g.(worker := Running(g.worker.command), startedQueued := g.startedQueued + [g.worker.command])
       case Broken(error) => g.(worker := Finishing(g.worker.command, StartupFailed(error))))
    case FinishQueued(exit) => g.(worker := Finishing(g.worker.command, exit))
    case Settle =>
      g.(worker := Idle, settledQueued := g.settledQueued + [g.worker.command],
         clients := g.clients[g.worker.command := Settled(g.worker.exit)])
    case WriteState(outcome) => g.(readiness := Some(outcome), signaller := WroteState(outcome))
    case WriteLatch => g.(latch := Some(g.signaller.outcome), signaller := Finished(g.signaller.outcome))
  }

  /** A run: every step enabled where it is taken. */
  ghost predicate IsRun(g: Gate, steps: seq<Step>)
    decreases |steps|
  {
    steps == [] || (Enabled(g, steps[0]) && IsRun(Next(g, steps[0]), steps[1..]))
  }

  ghost function After(g: Gate, steps: seq<Step>): Gate
    requires IsRun(g, steps)
    decreases |steps|
  {
    if steps == [] then g else After(Next(g, steps[0]), steps[1..])
  }

  // The invariant

  function Held(w: Worker): seq<CommandId> {
    if w.Idle? then [] else [w.command]
  }

  predicate SignallerOk(g: Gate) {
    match g.signaller
    case NotStarted => g.readiness.None? && g.latch.None?
    case WroteState(outcome) => g.readiness == Some(outcome) && g.latch.None?
    case Finished(outcome) => g.readiness == Some(outcome) && g.latch == Some(outcome)
  }

  /** Offers are delivered in order: results first, then the command the worker holds, then the
      queue; a command is offered once, and awaits exactly until its result is delivered. */
  ghost predicate QueueOk(g: Gate) {
    && g.offered == g.settledQueued + Held(g.worker) + g.queue
    && NoDuplicates(g.offered)
    && (forall c | c in g.offered :: c in g.clients && (g.clients[c].Waiting? || g.clients[c].Settled?))
    && (forall c | c in g.clients && g.clients[c].Waiting? :: c in g.offered && c !in g.settledQueued)
    && (forall c | c in Held(g.worker) + g.queue :: c in g.clients && g.clients[c].Waiting?)
  }

  /** Effects start only on a ready gate, in the order of the offers. */
  ghost predicate StartsOk(g: Gate) {
    && (g.startedQueued != [] || g.worker.Running? ==> g.latch == Some(Ready))
    && (g.latch == Some(Ready) ==>
          g.startedQueued == g.settledQueued + (if g.worker.Running? || g.worker.Finishing? then Held(g.worker) else []))
    && (g.latch.None? ==> g.settledQueued == [] && (g.worker.Idle? || g.worker.Awaiting?))
  }

  ghost predicate DirectOk(g: Gate) {
    && NoDuplicates(g.startedDirect)
    && (g.startedDirect != [] ==> g.readiness == Some(Ready))
    && (forall c | c in g.startedDirect :: c in g.clients && c !in g.offered && (g.clients[c].RunningDirect? || g.clients[c].Settled?))
    && (forall c | c in g.clients && g.clients[c].RunningDirect? :: c in g.startedDirect)
  }

  /** Once startup has failed every result so far is the startup error. */
  ghost predicate FailureOk(g: Gate) {
    g.readiness.Some? && g.readiness.value.Broken? ==>
      && (forall c | c in g.clients && g.clients[c].Settled? :: g.clients[c].exit == StartupFailed(g.readiness.value.error))
      && (g.worker.Finishing? ==> g.worker.exit == StartupFailed(g.readiness.value.error))
  }

  /** Before the readiness is written nothing has settled. */
  ghost predicate PendingOk(g: Gate) {
    g.readiness.None? ==> forall c | c in g.clients :: g.clients[c].SawPending? || g.clients[c].Waiting?
  }

  ghost predicate Inv(g: Gate) {
    SignallerOk(g) && QueueOk(g) && StartsOk(g) && DirectOk(g) && FailureOk(g) && PendingOk(g)
  }

  lemma AppendDistinct(s: seq<CommandId>, c: CommandId)
    requires NoDuplicates(s) && c !in s
    ensures NoDuplicates(s + [c])
  {}

  lemma OfferKeepsQueue(g: Gate, c: CommandId)
    requires Inv(g) && Enabled(g, Offer(c))
    ensures QueueOk(Next(g, Offer(c)))
  {
    hide NoDuplicates, FailureOk, StartsOk, PendingOk, DirectOk;
    AppendDistinct(g.offered, c);
    assert Next(g, Offer(c)).offered == g.settledQueued + Held(g.worker) + (g.queue + [c]);
  }

  lemma TakeKeepsQueue(g: Gate)
    requires QueueOk(g) && Enabled(g, Take)
    ensures QueueOk(Next(g, Take))
  {
    hide NoDuplicates;
    var n := Next(g, Take);
    assert g.queue == [g.queue[0]] + g.queue[1..];
    assert n.offered == g.settledQueued + [g.queue[0]] + n.queue;
    assert Held(n.worker) + n.queue == Held(g.worker) + g.queue;
  }

  lemma StepKeepsQueue(g: Gate, s: Step)
    requires Inv(g) && Enabled(g, s)
    ensures QueueOk(Next(g, s))
  {
    hide NoDuplicates, FailureOk, PendingOk;
    match s {
      case Offer(c) => OfferKeepsQueue(g, c);
      case Take => TakeKeepsQueue(g);
      case Settle => SettleKeepsQueue(g);
      case _ =>
    }
  }

  lemma SettleKeepsQueue(g: Gate)
    requires QueueOk(g) && g.worker.Finishing?
    ensures QueueOk(Next(g, Settle))
  {
    var n, c := Next(g, Settle), g.worker.command;
    assert n.offered == g.settledQueued + [c] + g.queue + [];
    OnceInSplit(g.settledQueued, c, g.queue);
    assert c in g.offered;
    assert forall x | x in Held(n.worker) + n.queue :: x in Held(g.worker) + g.queue;
  }

  lemma OnceInSplit(a: seq<CommandId>, c: CommandId, b: seq<CommandId>)
    requires NoDuplicates(a + [c] + b)
    ensures c !in a && c !in b && NoDuplicates(a)
  {
    var s := a + [c] + b;
    assert s[|a|] == c;
    assert forall i | 0 <= i < |a| :: s[i] == a[i];
    assert forall i | 0 <= i < |b| :: s[|a| + 1 + i] == b[i];
  }

  lemma StepKeepsStarts(g: Gate, s: Step)
    requires Inv(g) && Enabled(g, s)
    ensures StartsOk(Next(g, s))
  {
    hide NoDuplicates, FailureOk, DirectOk, PendingOk;
  }

  lemma StepKeepsDirect(g: Gate, s: Step)
    requires Inv(g) && Enabled(g, s)
    ensures DirectOk(Next(g, s))
  {
    hide FailureOk, PendingOk, StartsOk, NoDuplicates;
    var n := Next(g, s);
    if s.ReadState? && g.readiness == Some(Ready) {
      assert s.command !in g.offered && s.command !in g.startedDirect;
      AppendDistinct(g.startedDirect, s.command);
    }
    if s.Settle? {
      assert g.worker.command in g.offered;
    }
  }

  lemma StepKeepsFailure(g: Gate, s: Step)
    requires Inv(g) && Enabled(g, s)
    ensures FailureOk(Next(g, s)) && PendingOk(Next(g, s)) && SignallerOk(Next(g, s))
  {
    hide NoDuplicates;
  }

  lemma StepKeepsInv(g: Gate, s: Step)
    requires Inv(g) && Enabled(g, s)
    ensures Inv(Next(g, s))
  {
    hide QueueOk, StartsOk, DirectOk, FailureOk, PendingOk, SignallerOk;
    StepKeepsQueue(g, s);
    StepKeepsStarts(g, s);
    StepKeepsDirect(g, s);
    StepKeepsFailure(g, s);
  }

  lemma InitialInv()
    ensures Inv(INITIAL)
  {}

  lemma {:induction false} RunKeepsInv(g: Gate, steps: seq<Step>)
    requires Inv(g) && IsRun(g, steps)
    ensures Inv(After(g, steps))
    decreases |steps|
  {
    hide Inv, Enabled, Next;
    if steps != [] {
      StepKeepsInv(g, steps[0]);
      RunKeepsInv(Next(g, steps[0]), steps[1..]);
    }
  }

  // What holds in every reachable state

  /** Nothing runs while the gate is pending. */
  lemma NothingRunsWhilePending(steps: seq<Step>)
    requires IsRun(INITIAL, steps)
    ensures var g := After(INITIAL, steps);
      g.readiness.None? ==>
        && g.startedQueued == [] && g.startedDirect == [] && !g.worker.Running?
        && (forall c | c in g.clients :: !g.clients[c].RunningDirect? && !g.clients[c].Settled?)
  {
    hide IsRun, After, NoDuplicates;
    InitialInv();
    RunKeepsInv(INITIAL, steps);
  }

  /** Every effect is started at most once, queued or direct, and every queued result is delivered
      at most once. */
  lemma AtMostOnce(steps: seq<Step>)
    requires IsRun(INITIAL, steps)
    ensures var g := After(INITIAL, steps);
      NoDuplicates(g.startedQueued + g.startedDirect) && NoDuplicates(g.settledQueued)
  {
    hide IsRun, After;
    InitialInv();
    RunKeepsInv(INITIAL, steps);
    DistinctStarts(After(INITIAL, steps));
  }

  lemma DistinctPrefix(s: seq<CommandId>, n: nat)
    requires NoDuplicates(s) && n <= |s|
    ensures NoDuplicates(s[..n])
  {}

  lemma DistinctConcat(a: seq<CommandId>, b: seq<CommandId>)
    requires NoDuplicates(a) && NoDuplicates(b) && forall c | c in b :: c !in a
    ensures NoDuplicates(a + b)
  {
    var s := a + b;
    forall i, j | 0 <= i < j < |s| ensures s[i] != s[j] {
      if i < |a| <= j { assert b[j - |a|] in b; }
    }
  }

  lemma DistinctStarts(g: Gate)
    requires Inv(g)
    ensures NoDuplicates(g.startedQueued + g.startedDirect) && NoDuplicates(g.settledQueued)
    ensures g.startedQueued <= g.offered
  {
    hide FailureOk, PendingOk, NoDuplicates;
    assert g.settledQueued == g.offered[..|g.settledQueued|];
    DistinctPrefix(g.offered, |g.settledQueued|);
    assert g.startedQueued == g.offered[..|g.startedQueued|];
    DistinctPrefix(g.offered, |g.startedQueued|);
    forall c | c in g.startedDirect ensures c !in g.startedQueued { assert c !in g.offered; }
    DistinctConcat(g.startedQueued, g.startedDirect);
  }

  lemma SettledByStep(g: Gate, s: Step, c: CommandId)
    requires QueueOk(g) && Enabled(g, s) && c in g.clients && g.clients[c].Settled?
    ensures c in Next(g, s).clients && Next(g, s).clients[c] == g.clients[c]
  {
    hide NoDuplicates;
    if s.Settle? { assert g.worker.command in Held(g.worker) + g.queue; }
  }

  /** A result, once delivered, is final. */
  lemma {:induction false} SettledForGood(g: Gate, steps: seq<Step>, c: CommandId)
    requires Inv(g) && IsRun(g, steps) && c in g.clients && g.clients[c].Settled?
    ensures var h := After(g, steps); c in h.clients && h.clients[c] == g.clients[c]
    decreases |steps|
  {
    hide QueueOk, FailureOk, PendingOk, StartsOk, DirectOk, SignallerOk, Enabled, Next;
    if steps != [] {
      StepKeepsInv(g, steps[0]);
      SettledByStep(g, steps[0], c);
      SettledForGood(Next(g, steps[0]), steps[1..], c);
    }
  }

  /** Queued effects run in the order of their offers, one at a time: all started ones but the one
      the worker is busy with have already delivered their results. */
  lemma FirstInFirstOut(steps: seq<Step>)
    requires IsRun(INITIAL, steps)
    ensures var g := After(INITIAL, steps);
      && g.startedQueued <= g.offered
      && (g.startedQueued != [] ==>
            g.startedQueued == g.settledQueued + (if g.worker.Running? || g.worker.Finishing? then [g.worker.command] else []))
  {
    hide IsRun, After, NoDuplicates;
    InitialInv();
    RunKeepsInv(INITIAL, steps);
    DistinctStarts(After(INITIAL, steps));
  }

  /** After a failed startup no effect ever runs, and whatever settles does so with its error. */
  lemma FailureStopsEverything(steps: seq<Step>)
    requires IsRun(INITIAL, steps)
    ensures var g := After(INITIAL, steps);
      g.readiness.Some? && g.readiness.value.Broken? ==>
        && g.startedQueued == [] && g.startedDirect == []
        && forall c | c in g.clients && g.clients[c].Settled? :: g.clients[c].exit == StartupFailed(g.readiness.value.error)
  {
    hide IsRun, After, NoDuplicates, QueueOk;
    InitialInv();
    RunKeepsInv(INITIAL, steps);
  }

  /** No queued command is lost: until it settles it is in the queue or in the worker's hands. */
  lemma WaitingIsNotLost(steps: seq<Step>, c: CommandId)
    requires IsRun(INITIAL, steps)
    ensures var g := After(INITIAL, steps);
      (c in g.clients && g.clients[c].Waiting?) <==> (c in g.queue || c in Held(g.worker))
  {
    hide IsRun, After, NoDuplicates, StartsOk, DirectOk, FailureOk, PendingOk;
    InitialInv();
    RunKeepsInv(INITIAL, steps);
  }

  // What a command settles with

  /** The first `k` steps of a run are a run. */
  lemma {:induction false} RunPrefix(g: Gate, steps: seq<Step>, k: nat)
    requires IsRun(g, steps) && k <= |steps|
    ensures IsRun(g, steps[..k]) && IsRun(After(g, steps[..k]), steps[k..])
    ensures After(After(g, steps[..k]), steps[k..]) == After(g, steps)
    decreases k
  {
    hide Enabled, Next;
    if k == 0 {
      assert steps[..0] == [] && steps[0..] == steps;
    } else {
      RunPrefix(Next(g, steps[0]), steps[1..], k - 1);
      assert steps[..k][1..] == steps[1..][..k - 1] && steps[1..][k - 1..] == steps[k..];
      assert steps[..k][0] == steps[0];
    }
  }

  /** The state before step `k` of a run, and the step taken there. */
  lemma RunStep(steps: seq<Step>, k: nat)
    requires IsRun(INITIAL, steps) && k < |steps|
    ensures IsRun(INITIAL, steps[..k]) && Enabled(After(INITIAL, steps[..k]), steps[k])
    ensures IsRun(INITIAL, steps[..k + 1])
    ensures After(INITIAL, steps[..k + 1]) == Next(After(INITIAL, steps[..k]), steps[k])
    ensures IsRun(After(INITIAL, steps[..k + 1]), steps[k + 1..])
    ensures After(After(INITIAL, steps[..k + 1]), steps[k + 1..]) == After(INITIAL, steps)
    ensures Inv(After(INITIAL, steps[..k])) && Inv(After(INITIAL, steps[..k + 1]))
  {
    hide Enabled, Next, Inv;
    RunPrefix(INITIAL, steps, k);
    RunPrefix(INITIAL, steps, k + 1);
    var front := steps[..k + 1];
    RunPrefix(INITIAL, front, k);
    assert front[..k] == steps[..k] && front[k..] == [steps[k]] && [steps[k]][1..] == [];
    InitialInv();
    RunKeepsInv(INITIAL, steps[..k]);
    RunKeepsInv(INITIAL, front);
  }

  /** At step `k` the effect of the queued command `c`, which the worker was running, ended with `exit`. */
  ghost predicate EndedQueued(steps: seq<Step>, k: nat, c: CommandId, exit: Exit)
    requires IsRun(INITIAL, steps)
  {
    && k < |steps| && steps[k] == FinishQueued(exit)
    && IsRun(INITIAL, steps[..k]) && After(INITIAL, steps[..k]).worker == Running(c)
  }

  /** The worker is about to deliver `exit` to `c`, or has done so. */
  predicate Carries(g: Gate, c: CommandId, exit: Exit) {
    g.worker == Finishing(c, exit) || (c in g.clients && g.clients[c] == Settled(exit))
  }

  lemma {:induction false} CarriedOn(g: Gate, steps: seq<Step>, c: CommandId, exit: Exit)
    requires Inv(g) && IsRun(g, steps) && Carries(g, c, exit)
    ensures Carries(After(g, steps), c, exit)
    decreases |steps|
  {
    hide FailureOk, PendingOk, StartsOk, DirectOk, SignallerOk, NoDuplicates;
    if steps != [] {
      StepKeepsInv(g, steps[0]);
      if c in g.clients && g.clients[c] == Settled(exit) { SettledByStep(g, steps[0], c); }
      CarriedOn(Next(g, steps[0]), steps[1..], c, exit);
    }
  }

  /** Nothing that was settled is in the worker's hands. */
  lemma HeldIsUnsettled(g: Gate, c: CommandId)
    requires QueueOk(g) && c in g.settledQueued
    ensures c !in Held(g.worker)
  {
    if !g.worker.Idle? {
      assert g.offered == g.settledQueued + [g.worker.command] + g.queue;
      OnceInSplit(g.settledQueued, g.worker.command, g.queue);
    }
  }

  lemma EndedIsSettled(steps: seq<Step>, k: nat, c: CommandId, exit: Exit)
    requires IsRun(INITIAL, steps) && EndedQueued(steps, k, c, exit) && c in After(INITIAL, steps).settledQueued
    ensures var g := After(INITIAL, steps); c in g.clients && g.clients[c] == Settled(exit)
  {
    hide IsRun, After, FailureOk, PendingOk, StartsOk, DirectOk, SignallerOk, NoDuplicates, QueueOk;
    var g := After(INITIAL, steps);
    RunStep(steps, k);
    CarriedOn(After(INITIAL, steps[..k + 1]), steps[k + 1..], c, exit);
    InitialInv();
    RunKeepsInv(INITIAL, steps);
    HeldIsUnsettled(g, c);
  }

  /** Whatever the worker delivers on a ready gate, it got from the effect of that command. */
  lemma {:induction false} DeliveredEnded(steps: seq<Step>, c: CommandId) returns (k: nat, exit: Exit)
    requires IsRun(INITIAL, steps) && After(INITIAL, steps).latch == Some(Ready)
    requires var g := After(INITIAL, steps); (g.worker.Finishing? && g.worker.command == c) || c in g.settledQueued
    ensures EndedQueued(steps, k, c, exit) && Carries(After(INITIAL, steps), c, exit)
    decreases |steps|
  {
    hide IsRun, After, FailureOk, PendingOk, DirectOk, NoDuplicates, QueueOk;
    EmptyRun();
    var n := |steps| - 1;
    RunStep(steps, n);
    assert steps[..n + 1] == steps;
    var h, g := After(INITIAL, steps[..n]), After(INITIAL, steps);
    if steps[n].FinishQueued? && h.worker == Running(c) {
      k, exit := n, steps[n].exit;
    } else {
      k, exit := DeliveredEnded(steps[..n], c);
      assert steps[..n][..k] == steps[..k];
      CarriedByStep(h, steps[n], c, exit);
    }
  }

  lemma CarriedByStep(g: Gate, s: Step, c: CommandId, exit: Exit)
    requires Inv(g) && Enabled(g, s) && Carries(g, c, exit)
    ensures Carries(Next(g, s), c, exit)
  {
    hide NoDuplicates, FailureOk, PendingOk, DirectOk, StartsOk, SignallerOk;
    if c in g.clients && g.clients[c] == Settled(exit) { SettledByStep(g, s, c); }
  }

  lemma EmptyRun()
    ensures IsRun(INITIAL, []) && After(INITIAL, []) == INITIAL
  {}

  /** On a ready gate every queued command settles with the exit that its own effect ended with, and
      a settled one has such an end. */
  lemma QueuedSettlesWithItsExit(steps: seq<Step>, c: CommandId, exit: Exit)
    requires IsRun(INITIAL, steps) && c in After(INITIAL, steps).settledQueued
    ensures var g := After(INITIAL, steps);
      && c in g.clients && g.clients[c].Settled?
      && ((exists k :: EndedQueued(steps, k, c, exit)) ==> g.clients[c] == Settled(exit))
      && (g.readiness == Some(Ready) && g.clients[c] == Settled(exit) ==> exists k :: EndedQueued(steps, k, c, exit))
  {
    hide IsRun, After, EndedQueued, NoDuplicates, FailureOk, PendingOk, DirectOk;
    var g := After(INITIAL, steps);
    InitialInv();
    RunKeepsInv(INITIAL, steps);
    HeldIsUnsettled(g, c);
    assert c in g.offered && c in g.clients;
    if k :| EndedQueued(steps, k, c, exit) { EndedIsSettled(steps, k, c, exit); }
    if g.readiness == Some(Ready) && g.clients[c] == Settled(exit) {
      var k, own := DeliveredEnded(steps, c);
    }
  }

  /** A command that found the gate ready settles with the exit of the effect it ran itself. */
  lemma DirectSettlesWithItsExit(steps: seq<Step>, c: CommandId, exit: Exit)
    requires IsRun(INITIAL, steps)
    ensures var g := After(INITIAL, steps);
      FinishDirect(c, exit) in steps <==> c in g.startedDirect && c in g.clients && g.clients[c] == Settled(exit)
  {
    hide IsRun, After;
    if FinishDirect(c, exit) in steps { DirectEnd(steps, c, exit); }
    var g := After(INITIAL, steps);
    if c in g.startedDirect && c in g.clients && g.clients[c] == Settled(exit) { DirectEnded(steps, c, exit); }
  }

  lemma {:induction false} StartsStay(g: Gate, steps: seq<Step>)
    requires IsRun(g, steps)
    ensures g.startedDirect <= After(g, steps).startedDirect
    decreases |steps|
  {
    if steps != [] { StartsStay(Next(g, steps[0]), steps[1..]); }
  }

  lemma DirectEnd(steps: seq<Step>, c: CommandId, exit: Exit)
    requires IsRun(INITIAL, steps) && FinishDirect(c, exit) in steps
    ensures var g := After(INITIAL, steps); c in g.startedDirect && c in g.clients && g.clients[c] == Settled(exit)
  {
    hide IsRun, After, FailureOk, PendingOk, StartsOk, SignallerOk, NoDuplicates, QueueOk;
    var k :| 0 <= k < |steps| && steps[k] == FinishDirect(c, exit);
    RunStep(steps, k);
    var h := After(INITIAL, steps[..k + 1]);
    SettledForGood(h, steps[k + 1..], c);
    StartsStay(h, steps[k + 1..]);
  }

  lemma {:induction false} DirectEnded(steps: seq<Step>, c: CommandId, exit: Exit)
    requires IsRun(INITIAL, steps)
    requires var g := After(INITIAL, steps); c in g.startedDirect && c in g.clients && g.clients[c] == Settled(exit)
    ensures FinishDirect(c, exit) in steps
    decreases |steps|
  {
    hide IsRun, After, FailureOk, PendingOk, StartsOk, SignallerOk, NoDuplicates;
    EmptyRun();
    var n := |steps| - 1;
    RunStep(steps, n);
    assert steps[..n + 1] == steps;
    var h := After(INITIAL, steps[..n]);
    if steps[n] != FinishDirect(c, exit) {
      if c in h.clients && h.clients[c].Settled? { SettledByStep(h, steps[n], c); }
      DirectEnded(steps[..n], c, exit);
    }
  }

  // What a command finds when it arrives

  /** Neither queued nor about to be. */
  predicate NeverQueued(g: Gate, c: CommandId) {
    c in g.clients && !g.clients[c].SawPending? && c !in g.offered
  }

  lemma ArrivalStaysOnce(g: Gate, s: Step, c: CommandId)
    requires QueueOk(g) && Enabled(g, s) && c in g.clients
    ensures var h := Next(g, s);
      && c in h.clients && (c !in g.startedDirect ==> c !in h.startedDirect)
      && (NeverQueued(g, c) ==> NeverQueued(h, c))
  {
    hide NoDuplicates;
  }

  lemma {:induction false} ArrivalStays(g: Gate, steps: seq<Step>, c: CommandId)
    requires Inv(g) && IsRun(g, steps) && c in g.clients
    ensures var h := After(g, steps);
      && c in h.clients && (c !in g.startedDirect ==> c !in h.startedDirect)
      && (NeverQueued(g, c) ==> NeverQueued(h, c))
    decreases |steps|
  {
    hide FailureOk, PendingOk, StartsOk, SignallerOk, DirectOk, QueueOk, Enabled, Next, NeverQueued;
    if steps != [] {
      StepKeepsInv(g, steps[0]);
      ArrivalStaysOnce(g, steps[0], c);
      ArrivalStays(Next(g, steps[0]), steps[1..], c);
    }
  }

  /** What a command finds when it arrives decides for good: nothing that arrives once startup is over
      is ever queued, it runs its own effect on a ready gate and fails at once on a broken one; what
      arrives before never runs its own effect directly. */
  lemma ArrivalDecides(steps: seq<Step>, k: nat, c: CommandId)
    requires IsRun(INITIAL, steps) && k < |steps| && steps[k] == ReadState(c) && IsRun(INITIAL, steps[..k])
    ensures var g := After(INITIAL, steps);
      c in g.clients && match After(INITIAL, steps[..k]).readiness
        case None => c !in g.startedDirect
        case Some(Ready) => c in g.startedDirect && c !in g.offered
        case Some(Broken(error)) =>
          g.clients[c] == Settled(StartupFailed(error)) && c !in g.offered && c !in g.startedDirect
  {
    hide IsRun, After, FailureOk, PendingOk, StartsOk, SignallerOk, NoDuplicates;
    RunStep(steps, k);
    var h, n := After(INITIAL, steps[..k]), After(INITIAL, steps[..k + 1]);
    assert c !in h.offered && c !in h.startedDirect;
    ArrivalStays(n, steps[k + 1..], c);
    StartsStay(n, steps[k + 1..]);
    if n.clients[c].Settled? { SettledForGood(n, steps[k + 1..], c); }
  }

  // Once the latch is complete the worker drains the queue

  function Work(g: Gate): nat {
    4 * |g.queue| + match g.worker
      case Idle => 0
      case Awaiting(_) => 3
      case Running(_) => 2
      case Finishing(_, _) => 1
  }

  /** The worker's next step; `exit` is how an effect would end. */
  function WorkerStep(g: Gate, exit: Exit): Step {
    match g.worker
    case Idle => Take
    case Awaiting(_) => Proceed
    case Running(_) => FinishQueued(exit)
    case Finishing(_, _) => Settle
  }

  lemma WorkerAdvances(g: Gate, exit: Exit)
    requires g.latch.Some? && Work(g) > 0
    ensures Enabled(g, WorkerStep(g, exit)) && Work(Next(g, WorkerStep(g, exit))) < Work(g)
    ensures Next(g, WorkerStep(g, exit)).latch == g.latch
  {}

  ghost function Drain(g: Gate, exit: Exit): seq<Step>
    requires g.latch.Some?
    decreases Work(g)
  {
    if Work(g) == 0 then []
    else
      WorkerAdvances(g, exit);
      [WorkerStep(g, exit)] + Drain(Next(g, WorkerStep(g, exit)), exit)
  }

  lemma {:induction false} DrainIsRun(g: Gate, exit: Exit)
    requires g.latch.Some?
    ensures IsRun(g, Drain(g, exit)) && Work(After(g, Drain(g, exit))) == 0
    ensures |Drain(g, exit)| <= Work(g)
    decreases Work(g)
  {
    hide Enabled, Next, Work;
    if Work(g) > 0 {
      WorkerAdvances(g, exit);
      var s := WorkerStep(g, exit);
      DrainIsRun(Next(g, s), exit);
      assert Drain(g, exit)[1..] == Drain(Next(g, s), exit);
    }
  }

  /** From every reachable state with a complete latch the worker alone settles every queued
      command, in at most four steps each, provided effects end. */
  lemma WorkerDrainsTheQueue(steps: seq<Step>, exit: Exit)
    requires IsRun(INITIAL, steps) && After(INITIAL, steps).latch.Some?
    ensures var g := After(INITIAL, steps);
      && IsRun(g, Drain(g, exit)) && |Drain(g, exit)| <= 4 * |g.queue| + 3
      && forall c | c in g.clients && g.clients[c].Waiting? ::
           var h := After(g, Drain(g, exit)); c in h.clients && h.clients[c].Settled?
  {
    hide IsRun, After, NoDuplicates, Drain, StartsOk, DirectOk, FailureOk, PendingOk;
    InitialInv();
    RunKeepsInv(INITIAL, steps);
    var g := After(INITIAL, steps);
    DrainIsRun(g, exit);
    RunKeepsInv(g, Drain(g, exit));
    var h := After(g, Drain(g, exit));
    OffersGrow(g, Drain(g, exit));
    forall c | c in g.clients && g.clients[c].Waiting? ensures c in h.clients && h.clients[c].Settled? {
      assert c in g.offered && c in h.offered;
      assert Held(h.worker) + h.queue == [];
    }
  }

  lemma {:induction false} OffersGrow(g: Gate, steps: seq<Step>)
    requires IsRun(g, steps)
    ensures g.offered <= After(g, steps).offered
    decreases |steps|
  {
    if steps != [] {
      OffersGrow(Next(g, steps[0]), steps[1..]);
    }
  }
}
