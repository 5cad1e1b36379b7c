/** Deriving a thread from the normalised state through two caches keyed by object identity
    (`apps/web/src/threadDerivation.ts`). The cached objects are never changed once built; what the
    caches must give is the uncached derivation, and the very same object while nothing changed. */
module ThreadDerivation {
  import opened Text
  import opened Sequences

  /** An array of ids, a record by id and an array of collected values, each known by its identity. */
  class Ids {
    const items: seq<string>

    constructor (items: seq<string>)
      ensures this.items == items
    {
      this.items := items;
    }
  }

  class Records {
    const byId: map<string, string>

    constructor (byId: map<string, string>)
      ensures this.byId == byId
    {
      this.byId := byId;
    }
  }

  class Values {
    const items: seq<string>

    constructor (items: seq<string>)
      ensures this.items == items
    {
      this.items := items;
    }
  }

  class Shell {
    const title: string

    constructor (title: string)
      ensures this.title == title
    {
      this.title := title;
    }
  }

  class Session {
    constructor () {}
  }

  class TurnState {
    const latestTurn: Option<string>
    const pendingPlan: Option<string>

    constructor (latestTurn: Option<string>, pendingPlan: Option<string>)
      ensures this.latestTurn == latestTurn && this.pendingPlan == pendingPlan
    {
      this.latestTurn := latestTurn;
      this.pendingPlan := pendingPlan;
    }
  }

  datatype Family = Messages | Activities | ProposedPlans | TurnDiffs

  /** For each thread its shell, session and turn state, and per family its ids and records. */
  datatype State = State(shells: map<string, Shell>, sessions: map<string, Session>, turnStates: map<string, TurnState>,
                         ids: map<(Family, string), Ids>, records: map<(Family, string), Records>)

  /** What a thread is derived from; objects are compared by identity. */
  datatype Parts = Parts(session: Option<Session>, turnState: Option<TurnState>, messages: Values, activities: Values,
                         proposedPlans: Values, turnDiffs: Values)

  class Thread {
    const shell: Shell
    const session: Option<Session>
    const latestTurn: Option<string>
    const pendingPlan: Option<string>
    const messages: Values
    const activities: Values
    const proposedPlans: Values
    const turnDiffs: Values

    constructor (shell: Shell, parts: Parts)
      ensures Assembles(this, shell, parts)
    {
      this.shell := shell;
      session := parts.session;
      latestTurn := if parts.turnState.Some? then parts.turnState.value.latestTurn else None;
      pendingPlan := if parts.turnState.Some? then parts.turnState.value.pendingPlan else None;
      messages, activities := parts.messages, parts.activities;
      proposedPlans, turnDiffs := parts.proposedPlans, parts.turnDiffs;
    }
  }

  predicate Assembles(thread: Thread, shell: Shell, parts: Parts) {
    && thread.shell == shell && thread.session == parts.session
    && thread.latestTurn == (if parts.turnState.Some? then parts.turnState.value.latestTurn else None)
    && thread.pendingPlan == (if parts.turnState.Some? then parts.turnState.value.pendingPlan else None)
    && thread.messages == parts.messages && thread.activities == parts.activities
    && thread.proposedPlans == parts.proposedPlans && thread.turnDiffs == parts.turnDiffs
  }

  /** `ids.flatMap(...)`: the values that exist, in the order of the ids. */
  function Collected(ids: seq<string>, byId: map<string, string>): seq<string> {
    FlatMap(id => if id in byId then [byId[id]] else [], ids)
  }

  /** What a family of a thread holds, without any cache. */
  function FamilyItems(s: State, family: Family, threadId: string): seq<string> {
    if (family, threadId) !in s.ids || (family, threadId) !in s.records then []
    else Collected(s.ids[(family, threadId)].items, s.records[(family, threadId)].byId)
  }

  /** `thread` shows what the state holds for the thread. */
  predicate Shows(thread: Thread, s: State, threadId: string)
    requires threadId in s.shells
  {
    && thread.shell == s.shells[threadId]
    && thread.session == (if threadId in s.sessions then Some(s.sessions[threadId]) else None)
    && thread.latestTurn == (if threadId in s.turnStates then s.turnStates[threadId].latestTurn else None)
    && thread.pendingPlan == (if threadId in s.turnStates then s.turnStates[threadId].pendingPlan else None)
    && thread.messages.items == FamilyItems(s, Messages, threadId)
    && thread.activities.items == FamilyItems(s, Activities, threadId)
    && thread.proposedPlans.items == FamilyItems(s, ProposedPlans, threadId)
    && thread.turnDiffs.items == FamilyItems(s, TurnDiffs, threadId)
  }

  /** Whatever array `a` holds for a pair of objects, `b` holds too. */
  ghost predicate Remembers(a: map<Ids, map<Records, Values>>, b: map<Ids, map<Records, Values>>) {
    forall ids, records | ids in a && records in a[ids] :: ids in b && records in b[ids] && b[ids][records] == a[ids][records]
  }

  lemma RemembersAll(c0: map<Ids, map<Records, Values>>, c1: map<Ids, map<Records, Values>>, c2: map<Ids, map<Records, Values>>,
                     c3: map<Ids, map<Records, Values>>, c4: map<Ids, map<Records, Values>>)
    requires Remembers(c0, c1) && Remembers(c1, c2) && Remembers(c2, c3) && Remembers(c3, c4)
    ensures Remembers(c0, c2) && Remembers(c0, c3) && Remembers(c0, c4)
    ensures Remembers(c1, c3) && Remembers(c1, c4) && Remembers(c2, c4)
  {}

  /** The array that collecting gives without building one. */
  function SettledIn(c: map<Ids, map<Records, Values>>, empty: Values, ids: Option<Ids>, records: Records): Option<Values> {
    match ids
    case None => Some(empty)
    case Some(i) =>
      if i.items == [] then Some(empty)
      else if i in c && records in c[i] then Some(c[i][records])
      else None
  }

  lemma StaysSettled(a: map<Ids, map<Records, Values>>, b: map<Ids, map<Records, Values>>, empty: Values, ids: Option<Ids>,
                     records: Records)
    requires Remembers(a, b)
    ensures SettledIn(a, empty, ids, records).Some? ==>
            SettledIn(b, empty, ids, records) == SettledIn(a, empty, ids, records)
  {}

  datatype CachedThread = CachedThread(parts: Parts, thread: Thread)

  class Derivation {
    const emptyMessages: Values
    const emptyActivities: Values
    const emptyProposedPlans: Values
    const emptyTurnDiffs: Values
    const emptyMessageMap: Records
    const emptyActivityMap: Records
    const emptyProposedPlanMap: Records
    const emptyTurnDiffMap: Records
    var collected: map<Ids, map<Records, Values>>
    var threads: map<Shell, CachedThread>

    /** Everything cached is what would be computed. */
    ghost predicate Valid()
      reads this
    {
      && (forall family: Family :: EmptyOf(family).items == [] && EmptyMapOf(family).byId == map[])
      && (forall ids, records | ids in collected && records in collected[ids] ::
        collected[ids][records].items == Collected(ids.items, records.byId))
      && (forall shell | shell in threads :: Assembles(threads[shell].thread, shell, threads[shell].parts))
    }

    constructor ()
      ensures Valid() && fresh(this)
    {
      emptyMessages := new Values([]);
      emptyActivities := new Values([]);
      emptyProposedPlans := new Values([]);
      emptyTurnDiffs := new Values([]);
      emptyMessageMap := new Records(map[]);
      emptyActivityMap := new Records(map[]);
      emptyProposedPlanMap := new Records(map[]);
      emptyTurnDiffMap := new Records(map[]);
      collected, threads := map[], map[];
    }

    /** The empty array of a family, one object each. */
    function EmptyOf(family: Family): Values {
      match family
      case Messages => emptyMessages
      case Activities => emptyActivities
      case ProposedPlans => emptyProposedPlans
      case TurnDiffs => emptyTurnDiffs
    }

    function EmptyMapOf(family: Family): Records {
      match family
      case Messages => emptyMessageMap
      case Activities => emptyActivityMap
      case ProposedPlans => emptyProposedPlanMap
      case TurnDiffs => emptyTurnDiffMap
    }

    /** What the cache holds for a pair of objects. */
    function Hit(ids: Ids, records: Records): Option<Values>
      reads this`collected
    {
      if ids in collected && records in collected[ids] then Some(collected[ids][records]) else None
    }

    /** `collectByIds` */
    method CollectByIds(ids: Option<Ids>, byId: Records, emptyValue: Values) returns (r: Values)
      requires Valid() && emptyValue.items == []
      modifies this`collected
      ensures Valid()
      ensures ids.None? ==> r == emptyValue
      ensures ids.Some? ==> r.items == Collected(ids.value.items, byId.byId)
      ensures ids.Some? && ids.value.items == [] ==> r == emptyValue
      ensures ids.Some? && ids.value.items != [] ==> Hit(ids.value, byId) == Some(r)
      ensures ids.Some? && ids.value.items != [] && old(Hit(ids.value, byId)).Some? ==> old(Hit(ids.value, byId)) == Some(r)
      ensures Remembers(old(collected), collected)
    {
      if ids.None? || ids.value.items == [] {
        return emptyValue;
      }
      var hit := Hit(ids.value, byId);
      if hit.Some? {
        return hit.value;
      }
      r := new Values(Collected(ids.value.items, byId.byId));
      var byRecord: map<Records, Values> := if ids.value in collected then collected[ids.value] else map[];
      collected := collected[ids.value := byRecord[byId := r]];
    }

    function IdsOf(s: State, family: Family, threadId: string): Option<Ids> {
      if (family, threadId) in s.ids then Some(s.ids[(family, threadId)]) else None
    }

    function RecordsOf(s: State, family: Family, threadId: string): Records {
      if (family, threadId) in s.records then s.records[(family, threadId)] else EmptyMapOf(family)
    }

    /** The array that collecting a family gives without building one. */
    function Settled(s: State, family: Family, threadId: string): Option<Values>
      reads this`collected
    {
      SettledIn(collected, EmptyOf(family), IdsOf(s, family, threadId), RecordsOf(s, family, threadId))
    }

    /** `selectThreadMessages` and the three like it */
    method SelectFamily(s: State, family: Family, threadId: string) returns (r: Values)
      requires Valid()
      modifies this`collected
      ensures Valid() && Remembers(old(collected), collected)
      ensures r.items == FamilyItems(s, family, threadId)
      ensures Settled(s, family, threadId) == Some(r)
      ensures old(Settled(s, family, threadId)).Some? ==> old(Settled(s, family, threadId)) == Some(r)
    {
      r := CollectByIds(IdsOf(s, family, threadId), RecordsOf(s, family, threadId), EmptyOf(family));
      if (family, threadId) in s.ids && (family, threadId) !in s.records {
        NothingCollected(s.ids[(family, threadId)].items);
      }
    }

    /** The four arrays, and what else a thread is derived from. */
    method SelectParts(s: State, threadId: string) returns (parts: Parts)
      requires Valid()
      modifies this`collected
      ensures Valid() && Remembers(old(collected), collected)
      ensures PartsShow(parts, s, threadId) && SettledParts(s, threadId) == Some(parts)
      ensures old(SettledParts(s, threadId)).Some? ==> old(SettledParts(s, threadId)) == Some(parts)
    {
      hide Valid, SettledIn, FamilyItems, Remembers, IdsOf, RecordsOf, EmptyOf;
      ghost var c0 := collected;
      var messages := SelectFamily(s, Messages, threadId);
      ghost var c1 := collected;
      var activities := SelectFamily(s, Activities, threadId);
      ghost var c2 := collected;
      var proposedPlans := SelectFamily(s, ProposedPlans, threadId);
      ghost var c3 := collected;
      var turnDiffs := SelectFamily(s, TurnDiffs, threadId);
      RemembersAll(c0, c1, c2, c3, collected);
      StaysSettled(c0, c1, EmptyOf(Activities), IdsOf(s, Activities, threadId), RecordsOf(s, Activities, threadId));
      StaysSettled(c0, c2, EmptyOf(ProposedPlans), IdsOf(s, ProposedPlans, threadId), RecordsOf(s, ProposedPlans, threadId));
      StaysSettled(c0, c3, EmptyOf(TurnDiffs), IdsOf(s, TurnDiffs, threadId), RecordsOf(s, TurnDiffs, threadId));
      StaysSettled(c1, collected, EmptyOf(Messages), IdsOf(s, Messages, threadId), RecordsOf(s, Messages, threadId));
      StaysSettled(c2, collected, EmptyOf(Activities), IdsOf(s, Activities, threadId), RecordsOf(s, Activities, threadId));
      StaysSettled(c3, collected, EmptyOf(ProposedPlans), IdsOf(s, ProposedPlans, threadId), RecordsOf(s, ProposedPlans, threadId));
      parts := Parts(if threadId in s.sessions then Some(s.sessions[threadId]) else None,
                     if threadId in s.turnStates then Some(s.turnStates[threadId]) else None,
                     messages, activities, proposedPlans, turnDiffs);
    }

    /** The parts that are found without building anything. */
    function SettledParts(s: State, threadId: string): Option<Parts>
      reads this`collected
    {
      var m, a := Settled(s, Messages, threadId), Settled(s, Activities, threadId);
      var p, t := Settled(s, ProposedPlans, threadId), Settled(s, TurnDiffs, threadId);
      if m.None? || a.None? || p.None? || t.None? then None
      else Some(Parts(if threadId in s.sessions then Some(s.sessions[threadId]) else None,
                      if threadId in s.turnStates then Some(s.turnStates[threadId]) else None,
                      m.value, a.value, p.value, t.value))
    }

    /** The thread that is found without building anything. */
    function SettledThread(s: State, threadId: string): Option<Thread>
      reads this
    {
      if threadId in s.shells && s.shells[threadId] in threads
         && SettledParts(s, threadId) == Some(threads[s.shells[threadId]].parts)
      then Some(threads[s.shells[threadId]].thread)
      else None
    }

    /** `getThreadFromEnvironmentState`: the thread shows what the state holds; as long as nothing it is
        derived from is replaced, it is the very same object. */
    method GetThread(s: State, threadId: string) returns (r: Option<Thread>)
      requires Valid()
      modifies this
      ensures Valid()
      ensures r.None? <==> threadId !in s.shells
      ensures r.Some? ==> Shows(r.value, s, threadId) && SettledThread(s, threadId) == r
      ensures old(SettledThread(s, threadId)).Some? ==> old(SettledThread(s, threadId)) == r
    {
      hide Assembles, Collected, FamilyItems, IdsOf, PartsShow, RecordsOf, Remembers, Settled, SettledIn,
        SettledParts, Shows;
      if threadId !in s.shells {
        return None;
      }
      var shell := s.shells[threadId];
      var parts := SelectParts(s, threadId);
      if shell in threads && threads[shell].parts == parts {
        AssembledShows(threads[shell].thread, s, threadId, parts);
        return Some(threads[shell].thread);
      }
      var thread := new Thread(shell, parts);
      AssembledShows(thread, s, threadId, parts);
      Remember(shell, parts, thread);
      r := Some(thread);
    }

    /** `threadCache.set` */
    method Remember(shell: Shell, parts: Parts, thread: Thread)
      requires Valid() && Assembles(thread, shell, parts)
      modifies this`threads
      ensures Valid() && threads == old(threads)[shell := CachedThread(parts, thread)]
    {
      hide Assembles, Collected;
      threads := threads[shell := CachedThread(parts, thread)];
    }
  }

  lemma AssembledShows(thread: Thread, s: State, threadId: string, parts: Parts)
    requires threadId in s.shells && Assembles(thread, s.shells[threadId], parts) && PartsShow(parts, s, threadId)
    ensures Shows(thread, s, threadId)
  {
    hide FamilyItems;
  }

  /** The parts hold what the state holds for the thread. */
  predicate PartsShow(parts: Parts, s: State, threadId: string) {
    && parts.session == (if threadId in s.sessions then Some(s.sessions[threadId]) else None)
    && parts.turnState == (if threadId in s.turnStates then Some(s.turnStates[threadId]) else None)
    && parts.messages.items == FamilyItems(s, Messages, threadId)
    && parts.activities.items == FamilyItems(s, Activities, threadId)
    && parts.proposedPlans.items == FamilyItems(s, ProposedPlans, threadId)
    && parts.turnDiffs.items == FamilyItems(s, TurnDiffs, threadId)
  }

  lemma {:induction false} NothingCollected(ids: seq<string>)
    ensures Collected(ids, map[]) == []
  {
    if ids != [] { NothingCollected(ids[1..]); }
  }

  /** What is collected are the values of the ids in their order; an id without a value is passed over. */
  lemma {:induction false} CollectedInOrder(a: seq<string>, id: string, b: seq<string>, byId: map<string, string>)
    ensures Collected(a + [id] + b, byId) ==
            Collected(a, byId) + (if id in byId then [byId[id]] else []) + Collected(b, byId)
    ensures Collected([], byId) == []
    decreases |a|
  {
    var all := a + [id] + b;
    if a == [] {
      assert all[0] == id && all[1..] == b;
    } else {
      assert all[0] == a[0] && all[1..] == a[1..] + [id] + b;
      CollectedInOrder(a[1..], id, b, byId);
      assert Collected(a, byId) == (if a[0] in byId then [byId[a[0]]] else []) + Collected(a[1..], byId);
    }
  }

  /** A family of a thread holds what its ids have values for; without ids or without values, nothing. */
  lemma FamilyHolds(s: State, family: Family, threadId: string)
    ensures (family, threadId) !in s.ids ==> FamilyItems(s, family, threadId) == []
    ensures (family, threadId) !in s.records ==> FamilyItems(s, family, threadId) == []
    ensures (family, threadId) in s.ids && (family, threadId) in s.records ==>
      FamilyItems(s, family, threadId) == Collected(s.ids[(family, threadId)].items, s.records[(family, threadId)].byId)
  {}
}
