/** The composer draft store (`apps/web/src/composerDraftStore.ts`): what a user is writing, the draft
    sessions that have no thread yet, and which project each session belongs to. */
module ComposerDraftStore {
  import opened Text
  import opened Sequences
  import opened Deduplication
  import opened ComposerDraftItems
  import opened Scoped

  /** Composer content. `models` stands for the model selection of each provider instance. */
  datatype Draft = Draft(prompt: string, images: seq<Image>, nonPersistedImageIds: seq<string>,
                         persistedAttachments: seq<Attachment>, terminalContexts: seq<Context>,
                         models: map<string, string>, activeProvider: Option<string>,
                         runtimeMode: Option<string>, interactionMode: Option<string>)

  datatype Attachment = Attachment(id: string, dataUrl: string)

  datatype Session = Session(threadId: string, environmentId: string, projectId: string, logicalProjectKey: string,
                             createdAt: string, runtimeMode: string, interactionMode: string, branch: Option<string>,
                             worktreePath: Option<string>, envMode: string, promotedTo: Option<ThreadRef>)

  /** Drafts and sessions by thread key, and for each logical project the key of its session. */
  datatype Store = Store(drafts: map<string, Draft>, sessions: map<string, Session>, mappings: map<string, string>)

  /** Options of a session action; for `branch` and `worktreePath` null is a value of its own. */
  datatype Options = Options(threadId: Option<string>, branch: Option<Option<string>>, worktreePath: Option<Option<string>>,
                             createdAt: Option<string>, envMode: Option<string>, runtimeMode: Option<string>,
                             interactionMode: Option<string>)

  /** A draft id, or the server thread a composer belongs to. */
  datatype Target = DraftTarget(draftId: string) | ThreadTarget(ref: ThreadRef)

  const EMPTY_STORE: Store := Store(map[], map[], map[])

  const EMPTY_DRAFT: Draft := Draft("", [], [], [], [], map[], None, None, None)

  const DEFAULT_RUNTIME_MODE := "full-access"

  const DEFAULT_INTERACTION_MODE := "default"

  // Keys

  predicate Belongs(session: Session, ref: ThreadRef) {
    session.environmentId == ref.environmentId && session.threadId == ref.threadId
  }

  /** `resolveComposerDraftKey` finds `key` for `target`; of several sessions of one thread it takes
      the one inserted first, here any. */
  predicate Resolves(s: Store, target: Target, key: string) {
    match target
    case DraftTarget(draftId) => key == Trim(draftId) && key != ""
    case ThreadTarget(ref) =>
      if ThreadKey(ref) in s.drafts then key == ThreadKey(ref)
      else if exists k :: k in s.sessions && Belongs(s.sessions[k], ref) then key in s.sessions && Belongs(s.sessions[key], ref)
      else key == ThreadKey(ref)
  }

  /** `resolveComposerThreadId`; the empty id counts as none. */
  function ThreadIdOf(s: Store, target: Target): Option<string> {
    match target
    case DraftTarget(draftId) =>
      var key := Trim(draftId);
      if key != "" && key in s.sessions && s.sessions[key].threadId != "" then Some(s.sessions[key].threadId) else None
    case ThreadTarget(ref) => if ref.threadId != "" then Some(ref.threadId) else None
  }

  // Drafts

  predicate ShouldRemoveDraft(d: Draft) {
    && d.prompt == "" && d.images == [] && d.persistedAttachments == [] && d.terminalContexts == []
    && d.models == map[] && d.activeProvider == None && d.runtimeMode == None && d.interactionMode == None
  }

  function DraftOrEmpty(s: Store, key: string): Draft {
    if key in s.drafts then s.drafts[key] else EMPTY_DRAFT
  }

  /** Every action on a draft ends like this: an empty draft is not kept. */
  function StoreOrRemove(s: Store, key: string, d: Draft): Store {
    s.(drafts := if ShouldRemoveDraft(d) then s.drafts - {key} else s.drafts[key := d])
  }

  function SetPrompt(s: Store, key: string, prompt: string): Store {
    StoreOrRemove(s, key, DraftOrEmpty(s, key).(prompt := prompt))
  }

  function SetTerminalContexts(s: Store, key: string, threadId: string, contexts: seq<Context>): Store {
    var d := DraftOrEmpty(s, key);
    var normalized := NormalizeContexts(threadId, contexts);
    StoreOrRemove(s, key, d.(prompt := EnsurePlaceholders(d.prompt, |normalized|), terminalContexts := normalized))
  }

  /** What any of the model actions does once it has computed the next selections; where it leaves
      both as they were, nothing is stored. */
  function SetModels(s: Store, key: string, models: map<string, string>, activeProvider: Option<string>): Store {
    var d := DraftOrEmpty(s, key);
    if d.models == models && d.activeProvider == activeProvider then s
    else StoreOrRemove(s, key, d.(models := models, activeProvider := activeProvider))
  }

  /** `mode` is None for anything that is not a runtime mode. */
  function SetRuntimeMode(s: Store, key: string, mode: Option<string>): Store {
    var d := DraftOrEmpty(s, key);
    if d.runtimeMode == mode then s else StoreOrRemove(s, key, d.(runtimeMode := mode))
  }

  function SetInteractionMode(s: Store, key: string, mode: Option<string>): Store {
    var d := DraftOrEmpty(s, key);
    if d.interactionMode == mode then s else StoreOrRemove(s, key, d.(interactionMode := mode))
  }

  function AddImages(s: Store, key: string, images: seq<Image>): Store {
    var d := DraftOrEmpty(s, key);
    var accepted := Accept(IMAGES, d.images, images);
    if accepted == [] then s else s.(drafts := s.drafts[key := d.(images := d.images + accepted)])
  }

  const ATTACHMENT_ID: Attachment -> string := (attachment: Attachment) => attachment.id

  const SELF: string -> string := (id: string) => id

  function RemoveImage(s: Store, key: string, id: string): Store {
    if key !in s.drafts then s
    else
      var d := s.drafts[key];
      StoreOrRemove(s, key, d.(images := Except(IMAGES.id, d.images, {id}),
                               nonPersistedImageIds := Except(SELF, d.nonPersistedImageIds, {id}),
                               persistedAttachments := Except(ATTACHMENT_ID, d.persistedAttachments, {id})))
  }

  function Clamp(index: int, length: nat): nat {
    if index < 0 then 0 else if index > length then length else index
  }

  /** The context is taken in unless it is unreadable or already there. */
  predicate Inserts(s: Store, key: string, threadId: string, context: Context) {
    var normalized := Normalize(threadId, context);
    normalized.Some? && !Clashes(CONTEXTS, normalized.value, DraftOrEmpty(s, key).terminalContexts)
  }

  function InsertTerminalContext(s: Store, key: string, threadId: string, prompt: string, context: Context, index: int): Store {
    if !Inserts(s, key, threadId, context) then s
    else
      var d := DraftOrEmpty(s, key);
      var at := Clamp(index, |d.terminalContexts|);
      var contexts := d.terminalContexts[..at] + [Normalize(threadId, context).value] + d.terminalContexts[at..];
      s.(drafts := s.drafts[key := d.(prompt := prompt, terminalContexts := contexts)])
  }

  function AddTerminalContexts(s: Store, key: string, threadId: string, contexts: seq<Context>): Store {
    var d := DraftOrEmpty(s, key);
    var all := NormalizeContexts(threadId, d.terminalContexts + contexts);
    var accepted := if |all| <= |d.terminalContexts| then [] else all[|d.terminalContexts|..];
    if accepted == [] then s
    else
      var next := d.terminalContexts + accepted;
      s.(drafts := s.drafts[key := d.(prompt := EnsurePlaceholders(d.prompt, |next|), terminalContexts := next)])
  }

  function RemoveTerminalContext(s: Store, key: string, id: string): Store {
    if id == "" || key !in s.drafts then s
    else StoreOrRemove(s, key, s.drafts[key].(terminalContexts := Except(CONTEXTS.id, s.drafts[key].terminalContexts, {id})))
  }

  function ClearTerminalContexts(s: Store, key: string): Store {
    if key !in s.drafts || s.drafts[key].terminalContexts == [] then s
    else StoreOrRemove(s, key, s.drafts[key].(terminalContexts := []))
  }

  function ClearPersistedAttachments(s: Store, key: string): Store {
    if key !in s.drafts then s
    else StoreOrRemove(s, key, s.drafts[key].(persistedAttachments := [], nonPersistedImageIds := []))
  }

  function AttachmentIds(attachments: seq<Attachment>): set<string> {
    set i | 0 <= i < |attachments| :: attachments[i].id
  }

  function SyncPersistedAttachments(s: Store, key: string, attachments: seq<Attachment>): Store {
    if key !in s.drafts then s
    else
      var d := s.drafts[key];
      StoreOrRemove(s, key, d.(persistedAttachments := attachments,
                               nonPersistedImageIds := Except(SELF, d.nonPersistedImageIds, AttachmentIds(attachments))))
  }

  function ImageIds(images: seq<Image>): seq<string> {
    seq(|images|, i requires 0 <= i < |images| => images[i].id)
  }

  /** `verifyPersistedAttachments`, once storage has told which attachments it holds. */
  function VerifyPersistedAttachments(s: Store, key: string, attachments: seq<Attachment>, persisted: set<string>): Store {
    if key !in s.drafts then s
    else
      var d := s.drafts[key];
      var shown := set i | 0 <= i < |d.images| :: d.images[i].id;
      StoreOrRemove(s, key, d.(
        persistedAttachments := Except(ATTACHMENT_ID, attachments, AttachmentIds(attachments) - shown * persisted),
        nonPersistedImageIds := Except(SELF, ImageIds(d.images), persisted)))
  }

  function ClearComposerContent(s: Store, key: string): Store {
    if key !in s.drafts then s
    else StoreOrRemove(s, key, s.drafts[key].(prompt := "", images := [], nonPersistedImageIds := [],
                                              persistedAttachments := [], terminalContexts := []))
  }

  // Sessions

  predicate Promoting(s: Store, key: string) {
    key in s.sessions && s.sessions[key].promotedTo.Some?
  }

  function NextEnvMode(chosen: Option<string>, worktreePath: Option<string>, projectChanged: bool, existing: Option<string>): string {
    if chosen.Some? then chosen.value
    else if worktreePath.Some? && worktreePath.value != "" then "worktree"
    else if projectChanged then "local"
    else Or(existing, "local")
  }

  /** `createDraftThreadState`; `now` is the time of the call. */
  function CreateSession(project: ProjectRef, threadId: string, logicalProjectKey: string, existing: Option<Session>,
                         options: Options, now: string): Session
  {
    var projectChanged := existing.Some?
      && (existing.value.environmentId != project.environmentId || existing.value.projectId != project.projectId);
    var worktreePath :=
      if options.worktreePath.Some? then options.worktreePath.value
      else if projectChanged || existing.None? then None else existing.value.worktreePath;
    var branch :=
      if options.branch.Some? then options.branch.value
      else if projectChanged || existing.None? then None else existing.value.branch;
    Session(threadId, project.environmentId, project.projectId, logicalProjectKey,
            Or(options.createdAt, if existing.Some? then existing.value.createdAt else now),
            Or(options.runtimeMode, if existing.Some? then existing.value.runtimeMode else DEFAULT_RUNTIME_MODE),
            Or(options.interactionMode, if existing.Some? then existing.value.interactionMode else DEFAULT_INTERACTION_MODE),
            branch, worktreePath,
            NextEnvMode(options.envMode, worktreePath, projectChanged, if existing.Some? then Some(existing.value.envMode) else None),
            None)
  }

  function SessionAt(s: Store, key: string): Option<Session> {
    if key in s.sessions then Some(s.sessions[key]) else None
  }

  function NextSession(s: Store, projectKey: string, project: ProjectRef, draftId: string, options: Options, now: string): Session {
    var existing := SessionAt(s, draftId);
    var threadId := Or(options.threadId, if existing.Some? then existing.value.threadId else draftId);
    CreateSession(project, threadId, projectKey, existing, options, now)
  }

  predicate InUse(mappings: map<string, string>, key: string) {
    exists p :: p in mappings && mappings[p] == key
  }

  /** The session the project had before is dropped with its draft, unless another project still
      uses it or it is being promoted. */
  function DropReplaced(s: Store, previous: Option<string>, draftId: string): Store {
    if previous.Some? && previous.value != "" && previous.value != draftId
       && !InUse(s.mappings, previous.value) && !Promoting(s, previous.value)
    then s.(sessions := s.sessions - {previous.value}, drafts := s.drafts - {previous.value})
    else s
  }

  /** `setLogicalProjectDraftThreadId` */
  function SetProjectSession(s: Store, logicalProjectKey: string, project: ProjectRef, draftId: string, options: Options,
                             now: string): Store
  {
    var projectKey := Trim(logicalProjectKey);
    if projectKey == "" || draftId == "" then s
    else
      var previous := if projectKey in s.mappings then Some(s.mappings[projectKey]) else None;
      var next := Store(s.drafts, s.sessions[draftId := NextSession(s, projectKey, project, draftId, options, now)],
                        s.mappings[projectKey := draftId]);
      DropReplaced(next, previous, draftId)
  }

  function ProjectOf(session: Session): ProjectRef {
    ProjectRef(session.environmentId, session.projectId)
  }

  /** The session that `setDraftThreadContext` makes of an existing one. */
  function NextContext(existing: Session, project: Option<ProjectRef>, options: Options): Session {
    var ref := Or(project, ProjectOf(existing));
    if ref.projectId == "" || ref.environmentId == "" then existing
    else
      var projectChanged := ref != ProjectOf(existing);
      var worktreePath :=
        if options.worktreePath.Some? then options.worktreePath.value
        else if projectChanged then None else existing.worktreePath;
      var branch :=
        if options.branch.Some? then options.branch.value
        else if projectChanged then None else existing.branch;
      Session(existing.threadId, ref.environmentId, ref.projectId, existing.logicalProjectKey,
        if options.createdAt.Some? && options.createdAt.value != "" then options.createdAt.value else existing.createdAt,
        Or(options.runtimeMode, existing.runtimeMode), Or(options.interactionMode, existing.interactionMode),
        branch, worktreePath, NextEnvMode(options.envMode, worktreePath, projectChanged, Some(existing.envMode)),
        existing.promotedTo)
  }

  /** `setDraftThreadContext` */
  function SetSessionContext(s: Store, key: string, project: Option<ProjectRef>, options: Options): Store {
    if key !in s.sessions then s
    else s.(sessions := s.sessions[key := NextContext(s.sessions[key], project, options)])
  }

  /** `removeDraftThreadReferences` */
  function RemoveReferences(s: Store, key: string): Store {
    Store(s.drafts - {key}, s.sessions - {key}, map p | p in s.mappings && s.mappings[p] != key :: s.mappings[p])
  }

  predicate OfProject(session: Session, project: ProjectRef) {
    session.projectId == project.projectId && session.environmentId == project.environmentId
  }

  /** `clearProjectDraftThreadById`; with the first matching key it is `clearProjectDraftThreadId`. */
  function ClearProjectSession(s: Store, project: ProjectRef, key: string): Store {
    if key in s.sessions && OfProject(s.sessions[key], project) then RemoveReferences(s, key) else s
  }

  /** `markDraftThreadPromoting` */
  function MarkPromoting(s: Store, key: string, promotedTo: Option<ThreadRef>): Store {
    if key !in s.sessions then s
    else
      var existing := s.sessions[key];
      s.(sessions := s.sessions[key :=
        existing.(promotedTo := Some(Or(promotedTo, ThreadRef(existing.environmentId, existing.threadId))))])
  }

  /** `finalizePromotedDraftThread` */
  function FinalizePromoted(s: Store, key: string): Store {
    if Promoting(s, key) then RemoveReferences(s, key) else s
  }

  /** `clearDraftThread` */
  function ClearDraftThread(s: Store, key: string): Store {
    RemoveReferences(s, key)
  }
}
