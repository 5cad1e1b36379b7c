/** What the events of a terminal do to the layout of its thread. */
module TerminalEvents {
  import opened Text
  import opened Scoped
  import opened Sequences
  import opened TerminalLayout
  import opened TerminalTransitions
  import opened TerminalEffects
  import opened TerminalStore

  /** The other running terminals are the same. */
  ghost predicate SameOthers(s: Layout, r: Layout, t: string) {
    forall id | id != t :: id in s.runningTerminalIds <==> id in r.runningTerminalIds
  }

  lemma ActivityShows(s: Layout, t: string, running: bool)
    requires Coherent(s)
    ensures var r := SetActivity(s, t, running);
      && Coherent(r) && r == s.(runningTerminalIds := r.runningTerminalIds) && SameOthers(s, r, t)
      && (t in s.terminalIds ==> (t in r.runningTerminalIds <==> running))
      && (!running ==> t !in r.runningTerminalIds)
  {
    hide Coherent, SetActivity, Without;
    var r := SetActivity(s, t, running);
    SettersShow(s, t, running, true, NotFinite);
    SetActivityKeepsCoherence(s, t, running);
    forall id | id != t ensures id in s.runningTerminalIds <==> id in r.runningTerminalIds {
      WithoutMember(s.runningTerminalIds, t, id);
      WithoutMember(r.runningTerminalIds, t, id);
    }
    if t !in s.terminalIds { RunningIsListed(s); }
  }

  lemma RunningIsListed(s: Layout)
    requires Coherent(s)
    ensures forall id | id in s.runningTerminalIds :: id in s.terminalIds
  {}

  /** What one layout becomes by an event. */
  function Evented(s: Layout, e: TerminalEvent): Layout {
    var started := if e.kind.StartedEvent? || e.kind.RestartedEvent? then Start(s, e.terminalId) else s;
    match RunningSubprocess(e.kind)
    case Some(running) => SetActivity(started, e.terminalId, running)
    case None => started
  }

  lemma EventedIsSelected(layouts: Layouts, ref: ThreadRef, e: TerminalEvent)
    requires SparseOk(layouts)
    ensures Select(ApplyToLayouts(layouts, ref, e), ref) ==
            if ref.threadId == [] then Select(layouts, ref) else Evented(Select(layouts, ref), e)
  {
    hide SparseOk, Select, Update, Start, SetActivity;
    var started := Update(layouts, ref, Started(e.terminalId));
    UpdateRefinesTotalMap(layouts, ref, Started(e.terminalId), ref);
    var mid := if e.kind.StartedEvent? || e.kind.RestartedEvent? then started else layouts;
    match RunningSubprocess(e.kind) {
      case Some(running) => UpdateRefinesTotalMap(mid, ref, ActivityChanged(e.terminalId, running), ref);
      case None =>
    }
  }

  /** An event that starts a terminal lists it, shows it and makes it the active one, not running
      anything yet; an exit stops it running; a report of activity is taken over for a terminal that is
      listed. Output, errors and clearing leave the layout alone, and no event changes whether another
      terminal runs. */
  lemma EventShows(s: Layout, e: TerminalEvent)
    requires Coherent(s) && IsId(e.terminalId)
    ensures var t, r := e.terminalId, Evented(s, e);
      && SameOthers(s, r, t)
      && match e.kind
         case StartedEvent(_) => r.terminalOpen && t in r.terminalIds && r.activeTerminalId == t && t !in r.runningTerminalIds
         case RestartedEvent(_) => r.terminalOpen && t in r.terminalIds && r.activeTerminalId == t && t !in r.runningTerminalIds
         case ActivityEvent(running) =>
           && r == s.(runningTerminalIds := r.runningTerminalIds)
           && (t in s.terminalIds ==> (t in r.runningTerminalIds <==> running))
         case ExitedEvent => r == s.(runningTerminalIds := r.runningTerminalIds) && t !in r.runningTerminalIds
         case _ => r == s
  {
    hide Coherent, Start, SetActivity, SameOthers;
    var t := e.terminalId;
    var started := if e.kind.StartedEvent? || e.kind.RestartedEvent? then Start(s, t) else s;
    UsableId(t);
    StartKeepsCoherence(s, t);
    EnsureShows(s, t, None, None);
    match RunningSubprocess(e.kind) {
      case Some(running) => ActivityShows(started, t, running);
      case None =>
    }
    SameRunning(s, started, t);
    if RunningSubprocess(e.kind).Some? { OthersChain(s, started, Evented(s, e), t); }
  }

  lemma SameRunning(s: Layout, r: Layout, t: string)
    ensures s.runningTerminalIds == r.runningTerminalIds ==> SameOthers(s, r, t)
  {}

  lemma OthersChain(s: Layout, m: Layout, r: Layout, t: string)
    requires SameOthers(s, m, t) && SameOthers(m, r, t)
    ensures SameOthers(s, r, t)
  {}

  /** The store applies just that to the thread of the event, notes where a terminal was launched, and
      records the event behind the others of its buffer under the next number. */
  lemma EventIsApplied(st: Store, ref: ThreadRef, e: TerminalEvent)
    requires SparseOk(st.layouts)
    ensures var t, key := Next(st, Applied(ref, e)), BufferKey(ThreadKey(ref), e.terminalId);
      && (ref.threadId != [] ==> Select(t.layouts, ref) == Evented(Select(st.layouts, ref), e))
      && (ref.threadId == [] ==> Select(t.layouts, ref) == Select(st.layouts, ref))
      && (e.kind.StartedEvent? || e.kind.RestartedEvent? ==> t.launchContexts == st.launchContexts[ThreadKey(ref) := e.kind.context])
      && (!e.kind.StartedEvent? && !e.kind.RestartedEvent? ==> t.launchContexts == st.launchContexts)
      && key in t.entries && t.entries[key] != []
      && t.entries[key][|t.entries[key]| - 1] == Entry(st.nextEventId, e) && t.nextEventId == st.nextEventId + 1
      && t.entries - {key} == st.entries - {key}
  {
    hide SparseOk, Select, ApplyToLayouts, ThreadKey, BufferKey, Evented;
    EventedIsSelected(st.layouts, ref, e);
  }

  // The other actions of the store

  /** Launch contexts are read back until they are cleared, and one thread's leave the others' alone. */
  lemma LaunchContextReadsBack(st: Store, ref: ThreadRef, context: LaunchContext)
    ensures var key, set', cleared := ThreadKey(ref), Next(st, LaunchContextSet(ref, context)), Next(st, LaunchContextCleared(ref));
      && key in set'.launchContexts && set'.launchContexts[key] == context
      && key !in cleared.launchContexts
      && set'.launchContexts - {key} == cleared.launchContexts == st.launchContexts - {key}
      && cleared == st.(launchContexts := cleared.launchContexts) && set' == st.(launchContexts := set'.launchContexts)
  {
    hide ThreadKey;
  }

  /** A thread that is cleared or removed has the default layout again, no launch context and no event;
      every other thread keeps what it has. */
  lemma ClearedThreadIsEmpty(st: Store, ref: ThreadRef, other: ThreadRef, terminalId: string, a: StoreAction)
    requires SparseOk(st.layouts) && a in {StateCleared(ref), StateRemoved(ref)}
    requires NulFree(ThreadKey(ref)) && NulFree(ThreadKey(other))
    ensures var t, buffer := Next(st, a), BufferKey(ThreadKey(other), terminalId);
      if ThreadKey(other) == ThreadKey(ref) then
        && (ref.threadId != [] && other.threadId != [] ==> Select(t.layouts, other) == DEFAULT_LAYOUT)
        && ThreadKey(other) !in t.launchContexts && buffer !in t.entries
      else
        && Select(t.layouts, other) == Select(st.layouts, other)
        && (ThreadKey(other) in t.launchContexts <==> ThreadKey(other) in st.launchContexts)
        && (ThreadKey(other) in t.launchContexts ==> t.launchContexts[ThreadKey(other)] == st.launchContexts[ThreadKey(other)])
        && (buffer in t.entries <==> buffer in st.entries)
        && (buffer in t.entries ==> t.entries[buffer] == st.entries[buffer])
  {
    hide SparseOk, ThreadKey, NulFree, OfThread, BufferKey, Update;
    UpdateRefinesTotalMap(st.layouts, ref, Cleared, other);
    BuffersBelongToOneThread(ThreadKey(other), terminalId, ThreadKey(ref), {});
  }

  /** What belongs to a thread that is not active goes, what belongs to an active one stays. */
  lemma OrphansGo(st: Store, active: set<string>, threadKey: string, terminalId: string)
    requires NulFree(threadKey) && threadKey != []
    ensures var t, buffer := Next(st, OrphansRemoved(active)), BufferKey(threadKey, terminalId);
      && (threadKey in t.layouts <==> threadKey in st.layouts && threadKey in active)
      && (threadKey in t.layouts ==> t.layouts[threadKey] == st.layouts[threadKey])
      && (threadKey in t.launchContexts <==> threadKey in st.launchContexts && threadKey in active)
      && (threadKey in t.launchContexts ==> t.launchContexts[threadKey] == st.launchContexts[threadKey])
      && (buffer in t.entries <==> buffer in st.entries && threadKey in active)
      && (buffer in t.entries ==> t.entries[buffer] == st.entries[buffer])
  {
    hide NulFree, Orphaned, BufferKey;
    BuffersBelongToOneThread(threadKey, terminalId, threadKey, active);
  }
}
