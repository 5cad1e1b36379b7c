/** The terminal store: a sparse map of layouts, launch contexts, and bounded event buffers. */
module TerminalStore {
  import opened Text
  import opened Scoped
  import opened TerminalLayout
  import opened TerminalTransitions

  datatype LaunchContext = LaunchContext(cwd: string, worktreePath: Option<string>)

  datatype EventKind =
    | StartedEvent(context: LaunchContext)
    | RestartedEvent(context: LaunchContext)
    | OutputEvent(data: string)
    | ActivityEvent(hasRunningSubprocess: bool)
    | ExitedEvent
    | ErrorEvent(message: string)
    | ClearedEvent

  datatype TerminalEvent = TerminalEvent(terminalId: string, kind: EventKind)

  datatype Entry = Entry(id: nat, event: TerminalEvent)

  type Layouts = map<string, Layout>
  type Buffers = map<string, seq<Entry>>

  datatype Store = Store(layouts: Layouts, launchContexts: map<string, LaunchContext>, entries: Buffers, nextEventId: nat)

  const EMPTY := Store(map[], map[], map[], 1)
  const MAX_BUFFER := 200
  const NUL: char := '\0'

  function BufferKey(threadKey: string, terminalId: string): string {
    threadKey + [NUL] + terminalId
  }

  // The sparse map of layouts

  function Select(layouts: Layouts, ref: ThreadRef): Layout {
    if ref.threadId != [] && ThreadKey(ref) in layouts then layouts[ThreadKey(ref)] else DEFAULT_LAYOUT
  }

  predicate IsDefault(s: Layout) {
    Normalize(s) == DEFAULT_LAYOUT
  }

  /** An update to the layout of one thread; a default layout is not stored. The program first
      compares object identity, which is covered: an unchanged value leaves an equal map. */
  function Update(layouts: Layouts, ref: ThreadRef, a: Action): Layouts {
    if ref.threadId == [] then layouts
    else
      var next := Step(Select(layouts, ref), a);
      if IsDefault(next) then layouts - {ThreadKey(ref)} else layouts[ThreadKey(ref) := next]
  }

  // Event buffers

  function Append(entries: Buffers, key: string, entry: Entry): Buffers {
    var current := if key in entries then entries[key] else [];
    entries[key := (if |current| >= MAX_BUFFER then current[1..] else current) + [entry]]
  }

  function OfThread(key: string, threadKey: string): bool {
    threadKey + [NUL] <= key
  }

  /** `key.split("\0")[0]` */
  function ThreadPart(key: string): string {
    if key == [] || key[0] == NUL then [] else [key[0]] + ThreadPart(key[1..])
  }

  predicate Orphaned(key: string, activeThreadKeys: set<string>) {
    ThreadPart(key) != [] && ThreadPart(key) !in activeThreadKeys
  }

  function DropThread<V>(entries: map<string, V>, threadKey: string): map<string, V> {
    map k | k in entries && !OfThread(k, threadKey) :: entries[k]
  }

  function DropOrphans<V>(entries: map<string, V>, activeThreadKeys: set<string>): map<string, V> {
    map k | k in entries && !Orphaned(k, activeThreadKeys) :: entries[k]
  }

  function Keep<V>(m: map<string, V>, keys: set<string>): map<string, V> {
    map k | k in m && k in keys :: m[k]
  }

  // Store actions

  datatype StoreAction =
    | Updated(ref: ThreadRef, action: Action)
    | LaunchContextSet(ref: ThreadRef, context: LaunchContext)
    | LaunchContextCleared(ref: ThreadRef)
    | Recorded(ref: ThreadRef, event: TerminalEvent)
    | Applied(ref: ThreadRef, event: TerminalEvent)
    | StateCleared(ref: ThreadRef)
    | StateRemoved(ref: ThreadRef)
    | OrphansRemoved(activeThreadKeys: set<string>)

  function RunningSubprocess(kind: EventKind): Option<bool> {
    match kind
    case ActivityEvent(running) => Some(running)
    case StartedEvent(_) => Some(false)
    case RestartedEvent(_) => Some(false)
    case ExitedEvent => Some(false)
    case _ => None
  }

  function ApplyToLayouts(layouts: Layouts, ref: ThreadRef, e: TerminalEvent): Layouts {
    var started := if e.kind.StartedEvent? || e.kind.RestartedEvent? then Update(layouts, ref, Started(e.terminalId)) else layouts;
    match RunningSubprocess(e.kind)
    case Some(running) => Update(started, ref, ActivityChanged(e.terminalId, running))
    case None => started
  }

  function Record(st: Store, ref: ThreadRef, e: TerminalEvent): Store {
    st.(entries := Append(st.entries, BufferKey(ThreadKey(ref), e.terminalId), Entry(st.nextEventId, e)),
        nextEventId := st.nextEventId + 1)
  }

  function Next(st: Store, a: StoreAction): Store {
    match a
    case Updated(ref, action) => st.(layouts := Update(st.layouts, ref, action))
    case LaunchContextSet(ref, context) => st.(launchContexts := st.launchContexts[ThreadKey(ref) := context])
    case LaunchContextCleared(ref) => st.(launchContexts := st.launchContexts - {ThreadKey(ref)})
    case Recorded(ref, e) => Record(st, ref, e)
    case Applied(ref, e) =>
      var launched := if e.kind.StartedEvent? || e.kind.RestartedEvent?
                      then st.launchContexts[ThreadKey(ref) := e.kind.context] else st.launchContexts;
      Record(st, ref, e).(layouts := ApplyToLayouts(st.layouts, ref, e), launchContexts := launched)
    case StateCleared(ref) =>
      Store(Update(st.layouts, ref, Cleared), st.launchContexts - {ThreadKey(ref)},
            DropThread(st.entries, ThreadKey(ref)), st.nextEventId)
    case StateRemoved(ref) =>
      Store(st.layouts - {ThreadKey(ref)}, st.launchContexts - {ThreadKey(ref)},
            DropThread(st.entries, ThreadKey(ref)), st.nextEventId)
    case OrphansRemoved(active) =>
      Store(Keep(st.layouts, active), Keep(st.launchContexts, active), DropOrphans(st.entries, active), st.nextEventId)
  }

  function RunStore(st: Store, actions: seq<StoreAction>): Store
    decreases |actions|
  {
    if actions == [] then st else RunStore(Next(st, actions[0]), actions[1..])
  }

  // The sparse map refines a total one

  /** Only well-formed layouts other than the default one are stored. */
  ghost predicate SparseOk(layouts: Layouts) {
    forall k | k in layouts :: WellFormed(layouts[k]) && layouts[k] != DEFAULT_LAYOUT
  }

  lemma SelectIsWellFormed(layouts: Layouts, ref: ThreadRef)
    requires SparseOk(layouts)
    ensures WellFormed(Select(layouts, ref))
  {
    hide WellFormed;
    DefaultIsCoherent();
  }

  /** After an update the thread's layout is the updated one, every other thread's is untouched,
      and no default layout is stored. */
  lemma UpdateRefinesTotalMap(layouts: Layouts, ref: ThreadRef, a: Action, other: ThreadRef)
    requires SparseOk(layouts)
    ensures SparseOk(Update(layouts, ref, a))
    ensures Select(Update(layouts, ref, a), other)
         == if ref.threadId != [] && other.threadId != [] && ThreadKey(other) == ThreadKey(ref)
            then Step(Select(layouts, ref), a) else Select(layouts, other)
  {
    hide WellFormed, Step, ThreadKey;
    SelectIsWellFormed(layouts, ref);
    StepKeepsWellFormed(Select(layouts, ref), a);
  }

  /** The same value before and after leaves the same map, which is why the program may skip it. */
  lemma UnchangedUpdateIsNoOp(layouts: Layouts, ref: ThreadRef, a: Action)
    requires SparseOk(layouts) && Step(Select(layouts, ref), a) == Select(layouts, ref)
    ensures Update(layouts, ref, a) == layouts
  {
    hide WellFormed, Step, ThreadKey;
    SelectIsWellFormed(layouts, ref);
    StepKeepsWellFormed(Select(layouts, ref), a);
  }

  // The bounded buffers refine unbounded logs

  /** The reference: every entry recorded for a key since its log was last cleared. */
  function NextLogs(logs: Buffers, nextEventId: nat, a: StoreAction): Buffers {
    match a
    case Recorded(ref, e) => Log(logs, BufferKey(ThreadKey(ref), e.terminalId), Entry(nextEventId, e))
    case Applied(ref, e) => Log(logs, BufferKey(ThreadKey(ref), e.terminalId), Entry(nextEventId, e))
    case StateCleared(ref) => DropThread(logs, ThreadKey(ref))
    case StateRemoved(ref) => DropThread(logs, ThreadKey(ref))
    case OrphansRemoved(active) => DropOrphans(logs, active)
    case _ => logs
  }

  function Log(logs: Buffers, key: string, entry: Entry): Buffers {
    logs[key := (if key in logs then logs[key] else []) + [entry]]
  }

  function RunLogs(st: Store, logs: Buffers, actions: seq<StoreAction>): Buffers
    decreases |actions|
  {
    if actions == [] then logs else RunLogs(Next(st, actions[0]), NextLogs(logs, st.nextEventId, actions[0]), actions[1..])
  }

  function Last200(log: seq<Entry>): seq<Entry> {
    if |log| <= 200 then log else log[|log| - 200..]
  }

  ghost predicate IdsIncrease(log: seq<Entry>, nextEventId: nat) {
    && (forall i, j | 0 <= i < j < |log| :: log[i].id < log[j].id)
    && (forall i | 0 <= i < |log| :: log[i].id < nextEventId)
  }

  ghost predicate BuffersFollow(entries: Buffers, logs: Buffers, nextEventId: nat) {
    && entries.Keys == logs.Keys
    && (forall k | k in logs :: entries[k] == Last200(logs[k]) && IdsIncrease(logs[k], nextEventId))
  }

  lemma LastOfLonger(log: seq<Entry>, entry: Entry)
    ensures Last200(log + [entry])
         == (if |Last200(log)| >= MAX_BUFFER then Last200(log)[1..] else Last200(log)) + [entry]
  {}

  lemma LoggedIdsIncrease(log: seq<Entry>, e: TerminalEvent, nextEventId: nat)
    requires IdsIncrease(log, nextEventId)
    ensures IdsIncrease(log + [Entry(nextEventId, e)], nextEventId + 1)
  {}

  lemma OlderIdsIncrease(log: seq<Entry>, nextEventId: nat)
    requires IdsIncrease(log, nextEventId)
    ensures IdsIncrease(log, nextEventId + 1)
  {}

  lemma AppendFollows(entries: Buffers, logs: Buffers, key: string, e: TerminalEvent, nextEventId: nat)
    requires BuffersFollow(entries, logs, nextEventId)
    ensures BuffersFollow(Append(entries, key, Entry(nextEventId, e)), Log(logs, key, Entry(nextEventId, e)), nextEventId + 1)
  {
    hide Last200, IdsIncrease;
    var log := if key in logs then logs[key] else [];
    EmptyLog(nextEventId);
    assert IdsIncrease(log, nextEventId);
    LastOfLonger(log, Entry(nextEventId, e));
    LoggedIdsIncrease(log, e, nextEventId);
    forall k | k in logs ensures IdsIncrease(logs[k], nextEventId + 1) { OlderIdsIncrease(logs[k], nextEventId); }
  }

  lemma EmptyLog(nextEventId: nat)
    ensures IdsIncrease([], nextEventId) && Last200([]) == []
  {}

  lemma StepFollows(st: Store, logs: Buffers, a: StoreAction)
    requires BuffersFollow(st.entries, logs, st.nextEventId)
    ensures BuffersFollow(Next(st, a).entries, NextLogs(logs, st.nextEventId, a), Next(st, a).nextEventId)
  {
    hide Last200, IdsIncrease, Append, Log, BufferKey, ThreadKey, Update, ApplyToLayouts, OfThread, Orphaned;
    match a {
      case Recorded(ref, e) => AppendFollows(st.entries, logs, BufferKey(ThreadKey(ref), e.terminalId), e, st.nextEventId);
      case Applied(ref, e) => AppendFollows(st.entries, logs, BufferKey(ThreadKey(ref), e.terminalId), e, st.nextEventId);
      case _ =>
    }
  }

  lemma StepKeepsSparse(st: Store, a: StoreAction)
    requires SparseOk(st.layouts)
    ensures SparseOk(Next(st, a).layouts)
  {
    hide WellFormed, Step, Update, ThreadKey, BufferKey, Append;
    match a {
      case Updated(ref, action) => UpdateRefinesTotalMap(st.layouts, ref, action, ref);
      case Applied(ref, e) =>
        var started := Update(st.layouts, ref, Started(e.terminalId));
        UpdateRefinesTotalMap(st.layouts, ref, Started(e.terminalId), ref);
        var mid := if e.kind.StartedEvent? || e.kind.RestartedEvent? then started else st.layouts;
        match RunningSubprocess(e.kind) {
          case Some(running) => UpdateRefinesTotalMap(mid, ref, ActivityChanged(e.terminalId, running), ref);
          case None =>
        }
      case StateCleared(ref) => UpdateRefinesTotalMap(st.layouts, ref, Cleared, ref);
      case _ =>
    }
  }

  /** Over every run, only well-formed non-default layouts are stored, and every event buffer holds
      the last 200 entries logged for its key, with increasing ids below the next one. */
  lemma {:induction false} RunKeepsStore(st: Store, logs: Buffers, actions: seq<StoreAction>)
    requires SparseOk(st.layouts) && BuffersFollow(st.entries, logs, st.nextEventId)
    ensures var r := RunStore(st, actions);
      SparseOk(r.layouts) && BuffersFollow(r.entries, RunLogs(st, logs, actions), r.nextEventId)
    decreases |actions|
  {
    hide SparseOk, BuffersFollow, Next, NextLogs;
    if actions != [] {
      StepKeepsSparse(st, actions[0]);
      StepFollows(st, logs, actions[0]);
      RunKeepsStore(Next(st, actions[0]), NextLogs(logs, st.nextEventId, actions[0]), actions[1..]);
    }
  }

  lemma ReachableStore(actions: seq<StoreAction>)
    ensures var r := RunStore(EMPTY, actions);
      SparseOk(r.layouts) && BuffersFollow(r.entries, RunLogs(EMPTY, map[], actions), r.nextEventId)
  {
    hide RunStore, RunLogs;
    RunKeepsStore(EMPTY, map[], actions);
  }

  // Coherence

  /** The ids an action may add are usable. */
  predicate AdmissibleStoreAction(a: StoreAction) {
    match a
    case Updated(_, action) => Admissible(action)
    case Applied(_, e) => Usable(e.terminalId)
    case _ => true
  }

  ghost predicate AllCoherent(layouts: Layouts) {
    forall k | k in layouts :: Coherent(layouts[k])
  }

  lemma UpdateKeepsCoherent(layouts: Layouts, ref: ThreadRef, a: Action)
    requires AllCoherent(layouts) && Admissible(a)
    ensures AllCoherent(Update(layouts, ref, a))
  {
    hide Coherent, Step, Admissible, ThreadKey;
    DefaultIsCoherent();
    StepKeepsCoherence(Select(layouts, ref), a);
  }

  lemma StepKeepsCoherent(st: Store, a: StoreAction)
    requires AllCoherent(st.layouts) && AdmissibleStoreAction(a)
    ensures AllCoherent(Next(st, a).layouts)
  {
    hide Coherent, Step, Update, ThreadKey, Usable, BufferKey, Append;
    match a {
      case Updated(ref, action) => UpdateKeepsCoherent(st.layouts, ref, action);
      case Applied(ref, e) =>
        var started := Update(st.layouts, ref, Started(e.terminalId));
        UpdateKeepsCoherent(st.layouts, ref, Started(e.terminalId));
        var mid := if e.kind.StartedEvent? || e.kind.RestartedEvent? then started else st.layouts;
        match RunningSubprocess(e.kind) {
          case Some(running) => UpdateKeepsCoherent(mid, ref, ActivityChanged(e.terminalId, running));
          case None =>
        }
      case StateCleared(ref) => UpdateKeepsCoherent(st.layouts, ref, Cleared);
      case _ =>
    }
  }

  /** Over every run with usable ids each stored layout is coherent as well. */
  lemma {:induction false} RunKeepsCoherent(st: Store, actions: seq<StoreAction>)
    requires AllCoherent(st.layouts) && forall a | a in actions :: AdmissibleStoreAction(a)
    ensures AllCoherent(RunStore(st, actions).layouts)
    decreases |actions|
  {
    hide AllCoherent, Next, AdmissibleStoreAction;
    if actions != [] {
      assert AdmissibleStoreAction(actions[0]);
      StepKeepsCoherent(st, actions[0]);
      RunKeepsCoherent(Next(st, actions[0]), actions[1..]);
    }
  }

  // Which buffers belong to a thread

  predicate NulFree(s: string) {
    forall i | 0 <= i < |s| :: s[i] != NUL
  }

  lemma {:induction false} ThreadPartOf(threadKey: string, terminalId: string)
    requires NulFree(threadKey)
    ensures ThreadPart(BufferKey(threadKey, terminalId)) == threadKey
  {
    if threadKey == [] {
      assert BufferKey(threadKey, terminalId) == [NUL] + terminalId;
    } else {
      assert forall i | 0 <= i < |threadKey[1..]| :: threadKey[1..][i] == threadKey[i + 1];
      ThreadPartOf(threadKey[1..], terminalId);
      assert BufferKey(threadKey, terminalId)[1..] == BufferKey(threadKey[1..], terminalId);
    }
  }

  /** For thread keys without NUL, a buffer is dropped with a thread exactly when it is one of that
      thread's buffers, and dropped as an orphan exactly when its thread is not active. */
  lemma BuffersBelongToOneThread(threadKey: string, terminalId: string, other: string, active: set<string>)
    requires NulFree(threadKey) && NulFree(other)
    ensures OfThread(BufferKey(threadKey, terminalId), other) <==> other == threadKey
    ensures threadKey != [] ==> (Orphaned(BufferKey(threadKey, terminalId), active) <==> threadKey !in active)
  {
    hide BufferKey, ThreadPart, NulFree;
    ThreadPartOf(threadKey, terminalId);
    KeyOfThread(threadKey, terminalId);
    var key := BufferKey(threadKey, terminalId);
    if OfThread(key, other) {
      KeyFromPrefix(key, other);
      ThreadPartOf(other, key[|other| + 1..]);
    }
  }

  lemma KeyOfThread(threadKey: string, terminalId: string)
    ensures OfThread(BufferKey(threadKey, terminalId), threadKey)
  {}

  lemma KeyFromPrefix(key: string, threadKey: string)
    requires OfThread(key, threadKey)
    ensures |threadKey| < |key| && key == BufferKey(threadKey, key[|threadKey| + 1..])
  {}

  // The store object

  class TerminalStateStore {
    var layouts: Layouts
    var launchContexts: map<string, LaunchContext>
    var entries: Buffers
    var nextEventId: nat
    /** Everything recorded per key since it was last cleared. */
    ghost var logs: Buffers

    function GetStore(): Store
      reads this
    {
      Store(layouts, launchContexts, entries, nextEventId)
    }

    ghost predicate Valid()
      reads this
    {
      SparseOk(layouts) && BuffersFollow(entries, logs, nextEventId)
    }

    constructor ()
      ensures Valid() && GetStore() == EMPTY && logs == map[]
    {
      layouts, launchContexts, entries, nextEventId, logs := map[], map[], map[], 1, map[];
    }

    method UpdateTerminal(ref: ThreadRef, a: Action)
      requires Valid()
      modifies this
      ensures Valid() && GetStore() == Next(old(GetStore()), Updated(ref, a)) && logs == old(logs)
    {
      hide SparseOk, BuffersFollow, Step, Select;
      StepKeepsSparse(GetStore(), Updated(ref, a));
      if ref.threadId == [] {
        return;
      }
      var next := Step(Select(layouts, ref), a);
      if IsDefault(next) {
        layouts := layouts - {ThreadKey(ref)};
        return;
      }
      layouts := layouts[ThreadKey(ref) := next];
    }

    method SetTerminalLaunchContext(ref: ThreadRef, context: LaunchContext)
      requires Valid()
      modifies this
      ensures Valid() && GetStore() == Next(old(GetStore()), LaunchContextSet(ref, context)) && logs == old(logs)
    {
      launchContexts := launchContexts[ThreadKey(ref) := context];
    }

    method ClearTerminalLaunchContext(ref: ThreadRef)
      requires Valid()
      modifies this
      ensures Valid() && GetStore() == Next(old(GetStore()), LaunchContextCleared(ref)) && logs == old(logs)
    {
      launchContexts := launchContexts - {ThreadKey(ref)};
    }

    method RecordTerminalEvent(ref: ThreadRef, e: TerminalEvent)
      requires Valid()
      modifies this
      ensures Valid() && GetStore() == Next(old(GetStore()), Recorded(ref, e))
      ensures logs == NextLogs(old(logs), old(nextEventId), Recorded(ref, e))
    {
      hide SparseOk, BuffersFollow, BufferKey, ThreadKey;
      StepFollows(GetStore(), logs, Recorded(ref, e));
      var key := BufferKey(ThreadKey(ref), e.terminalId);
      var current := if key in entries then entries[key] else [];
      var entry := Entry(nextEventId, e);
      logs := Log(logs, key, entry);
      entries := entries[key := if |current| >= MAX_BUFFER then current[1..] + [entry] else current + [entry]];
      nextEventId := nextEventId + 1;
    }

    method ApplyTerminalEvent(ref: ThreadRef, e: TerminalEvent)
      requires Valid()
      modifies this
      ensures Valid() && GetStore() == Next(old(GetStore()), Applied(ref, e))
      ensures logs == NextLogs(old(logs), old(nextEventId), Applied(ref, e))
    {
      hide SparseOk, BuffersFollow, BufferKey, ThreadKey, Append, Log, Update;
      StepKeepsSparse(GetStore(), Applied(ref, e));
      StepFollows(GetStore(), logs, Applied(ref, e));
      var threadKey := ThreadKey(ref);
      if e.kind.StartedEvent? || e.kind.RestartedEvent? {
        layouts := Update(layouts, ref, Started(e.terminalId));
        launchContexts := launchContexts[threadKey := e.kind.context];
      }
      match RunningSubprocess(e.kind) {
        case Some(running) => layouts := Update(layouts, ref, ActivityChanged(e.terminalId, running));
        case None =>
      }
      var key := BufferKey(threadKey, e.terminalId);
      logs := Log(logs, key, Entry(nextEventId, e));
      entries := Append(entries, key, Entry(nextEventId, e));
      nextEventId := nextEventId + 1;
    }

    /** Deletes the buffers of one thread, key by key. */
    method DeleteThreadEntries(threadKey: string)
      modifies this`entries
      ensures entries == DropThread(old(entries), threadKey)
    {
      hide OfThread;
      var keys := entries.Keys;
      while keys != {}
        invariant keys <= old(entries).Keys
        invariant entries == map k | k in old(entries) && (k in keys || !OfThread(k, threadKey)) :: old(entries)[k]
        decreases keys
      {
        var key :| key in keys;
        if OfThread(key, threadKey) {
          entries := entries - {key};
        }
        keys := keys - {key};
      }
    }

    method ClearTerminalState(ref: ThreadRef)
      requires Valid()
      modifies this
      ensures Valid() && GetStore() == Next(old(GetStore()), StateCleared(ref))
      ensures logs == NextLogs(old(logs), old(nextEventId), StateCleared(ref))
    {
      hide SparseOk, BuffersFollow, ThreadKey, Update, DropThread;
      StepKeepsSparse(GetStore(), StateCleared(ref));
      StepFollows(GetStore(), logs, StateCleared(ref));
      layouts := Update(layouts, ref, Cleared);
      launchContexts := launchContexts - {ThreadKey(ref)};
      logs := DropThread(logs, ThreadKey(ref));
      DeleteThreadEntries(ThreadKey(ref));
    }

    method RemoveTerminalState(ref: ThreadRef)
      requires Valid()
      modifies this
      ensures Valid() && GetStore() == Next(old(GetStore()), StateRemoved(ref))
      ensures logs == NextLogs(old(logs), old(nextEventId), StateRemoved(ref))
    {
      hide SparseOk, BuffersFollow, ThreadKey, DropThread;
      StepKeepsSparse(GetStore(), StateRemoved(ref));
      StepFollows(GetStore(), logs, StateRemoved(ref));
      layouts := layouts - {ThreadKey(ref)};
      launchContexts := launchContexts - {ThreadKey(ref)};
      logs := DropThread(logs, ThreadKey(ref));
      DeleteThreadEntries(ThreadKey(ref));
    }

    method RemoveOrphanedTerminalStates(activeThreadKeys: set<string>)
      requires Valid()
      modifies this
      ensures Valid() && GetStore() == Next(old(GetStore()), OrphansRemoved(activeThreadKeys))
      ensures logs == NextLogs(old(logs), old(nextEventId), OrphansRemoved(activeThreadKeys))
    {
      hide SparseOk, BuffersFollow, Orphaned;
      StepKeepsSparse(GetStore(), OrphansRemoved(activeThreadKeys));
      StepFollows(GetStore(), logs, OrphansRemoved(activeThreadKeys));
      var keys := entries.Keys;
      while keys != {}
        invariant keys <= old(entries).Keys
        invariant entries == map k | k in old(entries) && (k in keys || !Orphaned(k, activeThreadKeys)) :: old(entries)[k]
        invariant layouts == old(layouts) && launchContexts == old(launchContexts) && nextEventId == old(nextEventId)
        invariant logs == old(logs)
        decreases keys
      {
        var key :| key in keys;
        if Orphaned(key, activeThreadKeys) {
          entries := entries - {key};
        }
        keys := keys - {key};
      }
      assert entries == DropOrphans(old(entries), activeThreadKeys);
      logs := DropOrphans(logs, activeThreadKeys);
      layouts := Keep(layouts, activeThreadKeys);
      launchContexts := Keep(launchContexts, activeThreadKeys);
    }
  }
}
