/** What every action on the composer draft store keeps. */
module ComposerDraftLaws {
  import opened Text
  import opened Sequences
  import opened Deduplication
  import opened ComposerDraftItems
  import opened ComposerDraftStore
  import opened Scoped

  // Soundness

  /** Images and contexts are listed once, and the contexts are readable. */
  predicate ItemsSound(d: Draft) {
    && DistinctItems(IMAGES, d.images) && DistinctItems(CONTEXTS, d.terminalContexts)
    && AllWellFormed(d.terminalContexts)
  }

  predicate DraftsSound(s: Store) {
    forall k | k in s.drafts :: !ShouldRemoveDraft(s.drafts[k]) && ItemsSound(s.drafts[k])
  }

  /** Every project points at a session, and every session is pointed at or being promoted. */
  predicate SessionsSound(s: Store) {
    && "" !in s.sessions
    && (forall p | p in s.mappings :: s.mappings[p] in s.sessions)
    && (forall k | k in s.sessions :: Promoting(s, k) || InUse(s.mappings, k))
  }

  predicate Sound(s: Store) {
    DraftsSound(s) && SessionsSound(s)
  }

  // Actions

  datatype Edit =
    | PromptSet(prompt: string)
    | ContextsSet(contexts: seq<Context>)
    | ModelsSet(models: map<string, string>, activeProvider: Option<string>)
    | RuntimeModeSet(mode: Option<string>)
    | InteractionModeSet(mode: Option<string>)
    | ImageAdded(image: Image)
    | ImagesAdded(images: seq<Image>)
    | ImageRemoved(id: string)
    | ContextInserted(prompt: string, context: Context, index: int)
    | ContextsAdded(contexts: seq<Context>)
    | ContextRemoved(id: string)
    | ContextsCleared
    | AttachmentsCleared
    | AttachmentsSynced(attachments: seq<Attachment>)
    | AttachmentsVerified(attachments: seq<Attachment>, persisted: set<string>)
    | ContentCleared
    | SessionContextSet(project: Option<ProjectRef>, options: Options)
    | ProjectSessionCleared(projectRef: ProjectRef)
    | Promoted(promotedTo: Option<ThreadRef>)
    | PromotionFinalized
    | DraftCleared

  datatype Action =
    | OnTarget(target: Target, edit: Edit)
    | SessionSet(logicalProjectKey: string, project: ProjectRef, draftId: string, options: Options, now: string)
    | ProjectCleared(project: ProjectRef)

  /** An edit at the key and the thread id its target resolves to. */
  function Apply(s: Store, key: string, threadId: Option<string>, edit: Edit): Store {
    match edit
    case PromptSet(prompt) => SetPrompt(s, key, prompt)
    case ContextsSet(contexts) => if threadId.None? then s else SetTerminalContexts(s, key, threadId.value, contexts)
    case ModelsSet(models, activeProvider) => SetModels(s, key, models, activeProvider)
    case RuntimeModeSet(mode) => SetRuntimeMode(s, key, mode)
    case InteractionModeSet(mode) => SetInteractionMode(s, key, mode)
    case ImageAdded(image) => if threadId.None? then s else AddImages(s, key, [image])
    case ImagesAdded(images) => AddImages(s, key, images)
    case ImageRemoved(id) => RemoveImage(s, key, id)
    case ContextInserted(prompt, context, index) =>
      if threadId.None? then s else InsertTerminalContext(s, key, threadId.value, prompt, context, index)
    case ContextsAdded(contexts) => if threadId.None? then s else AddTerminalContexts(s, key, threadId.value, contexts)
    case ContextRemoved(id) => RemoveTerminalContext(s, key, id)
    case ContextsCleared => ClearTerminalContexts(s, key)
    case AttachmentsCleared => ClearPersistedAttachments(s, key)
    case AttachmentsSynced(attachments) => SyncPersistedAttachments(s, key, attachments)
    case AttachmentsVerified(attachments, persisted) => VerifyPersistedAttachments(s, key, attachments, persisted)
    case ContentCleared => ClearComposerContent(s, key)
    case SessionContextSet(project, options) => SetSessionContext(s, key, project, options)
    case ProjectSessionCleared(project) => ClearProjectSession(s, project, key)
    case Promoted(promotedTo) => MarkPromoting(s, key, promotedTo)
    case PromotionFinalized => FinalizePromoted(s, key)
    case DraftCleared => ClearDraftThread(s, key)
  }

  /** `t` is what the action may make of `s`. */
  ghost predicate Steps(s: Store, action: Action, t: Store) {
    match action
    case OnTarget(target, edit) =>
      || (t == s && forall key :: !Resolves(s, target, key))
      || (exists key :: Resolves(s, target, key) && t == Apply(s, key, ThreadIdOf(s, target), edit))
    case SessionSet(logicalProjectKey, project, draftId, options, now) =>
      t == SetProjectSession(s, logicalProjectKey, project, draftId, options, now)
    case ProjectCleared(project) =>
      || (t == s && forall key | key in s.sessions :: !OfProject(s.sessions[key], project))
      || (exists key :: key in s.sessions && OfProject(s.sessions[key], project) && t == RemoveReferences(s, key))
  }

  // Drafts stay sound

  lemma StoreKeepsSound(s: Store, key: string, d: Draft)
    requires Sound(s) && ItemsSound(d)
    ensures Sound(StoreOrRemove(s, key, d))
    ensures !ShouldRemoveDraft(d) ==> Sound(s.(drafts := s.drafts[key := d]))
  {
    hide ItemsSound, ShouldRemoveDraft, InUse;
  }

  lemma EmptyIsSound()
    ensures ItemsSound(EMPTY_DRAFT) && Sound(EMPTY_STORE)
  {}

  lemma DraftIsSound(s: Store, key: string)
    requires Sound(s)
    ensures ItemsSound(DraftOrEmpty(s, key))
  {
    hide ItemsSound, ShouldRemoveDraft, SessionsSound;
    EmptyIsSound();
  }

  lemma ContextsLeftAreSound(contexts: seq<Context>, id: string)
    requires DistinctItems(CONTEXTS, contexts) && AllWellFormed(contexts)
    ensures DistinctItems(CONTEXTS, Except(CONTEXTS.id, contexts, {id})) && AllWellFormed(Except(CONTEXTS.id, contexts, {id}))
  {
    hide DistinctItems, WellFormed, Except;
    ExceptIsDistinct(CONTEXTS, contexts, {id});
    var r := Except(CONTEXTS.id, contexts, {id});
    forall i | 0 <= i < |r| ensures WellFormed(r[i]) {
      ExceptMember(CONTEXTS.id, contexts, {id}, r[i]);
    }
  }

  lemma InsertedIsDistinct(contexts: seq<Context>, x: Context, at: nat)
    requires at <= |contexts| && !Clashes(CONTEXTS, x, contexts) && DistinctItems(CONTEXTS, contexts)
    ensures DistinctItems(CONTEXTS, contexts[..at] + [x] + contexts[at..])
  {
    hide Same;
    var r := contexts[..at] + [x] + contexts[at..];
    forall i, j | 0 <= i < j < |r| ensures !Same(CONTEXTS, r[i], r[j]) {
      if i == at {
        assert r[j] == contexts[j - 1];
        SameSymmetric(CONTEXTS, x, contexts[j - 1]);
      } else if j == at {
        assert r[i] == contexts[i];
      } else {
        assert r[i] == contexts[if i < at then i else i - 1] && r[j] == contexts[if j < at then j else j - 1];
      }
    }
  }

  lemma SameSymmetric<T>(who: Identity<T>, x: T, y: T)
    ensures Same(who, x, y) <==> Same(who, y, x)
  {}

  lemma InsertedIsSound(contexts: seq<Context>, x: Context, at: nat)
    requires at <= |contexts| && WellFormed(x) && !Clashes(CONTEXTS, x, contexts)
    requires DistinctItems(CONTEXTS, contexts) && AllWellFormed(contexts)
    ensures var r := contexts[..at] + [x] + contexts[at..]; DistinctItems(CONTEXTS, r) && AllWellFormed(r)
  {
    hide DistinctItems, Clashes, WellFormed;
    InsertedIsDistinct(contexts, x, at);
  }

  lemma NormalizedIsSound(threadId: string, contexts: seq<Context>)
    ensures var r := NormalizeContexts(threadId, contexts); DistinctItems(CONTEXTS, r) && AllWellFormed(r)
  {
    hide Accept, Same, NormalizedAll;
    AcceptedWellFormed([], threadId, contexts);
    AcceptIsDistinct(CONTEXTS, [], NormalizedAll(threadId, contexts));
    var r := NormalizeContexts(threadId, contexts);
    assert [] + r == r;
  }

  /** `addTerminalContexts` adds exactly what is newly accepted. */
  lemma AddedContexts(s: Store, key: string, threadId: string, contexts: seq<Context>)
    requires Sound(s)
    ensures var d := DraftOrEmpty(s, key);
            var accepted := Accept(CONTEXTS, d.terminalContexts, NormalizedAll(threadId, contexts));
            var next := d.terminalContexts + accepted;
            && DistinctItems(CONTEXTS, next) && AllWellFormed(next)
            && AddTerminalContexts(s, key, threadId, contexts) ==
              if accepted == [] then s
              else s.(drafts := s.drafts[key :=
                d.(prompt := EnsurePlaceholders(d.prompt, |next|), terminalContexts := next)])
  {
    hide Accept, DistinctItems, DraftOrEmpty, EnsurePlaceholders, NormalizeContexts, NormalizedAll, Sound;
    DraftIsSound(s, key);
    var d := DraftOrEmpty(s, key);
    SliceIsNew(threadId, d.terminalContexts, contexts);
    AcceptIsDistinct(CONTEXTS, d.terminalContexts, NormalizedAll(threadId, contexts));
    AcceptedWellFormed(d.terminalContexts, threadId, contexts);
  }

  lemma ContextActionsKeepSound(s: Store, key: string, threadId: string, edit: Edit)
    requires Sound(s) && (edit.ContextsSet? || edit.ContextInserted? || edit.ContextsAdded? || edit.ContextRemoved?)
    ensures Sound(Apply(s, key, Some(threadId), edit))
  {
    hide Accept, AddTerminalContexts, AllWellFormed, Clashes, DistinctItems, EnsurePlaceholders, Normalize, NormalizeContexts, NormalizedAll, Sound, StoreOrRemove, WellFormed, Except;
    var d := DraftOrEmpty(s, key);
    DraftIsSound(s, key);
    match edit
    case ContextsSet(contexts) =>
      NormalizedIsSound(threadId, contexts);
      var n := NormalizeContexts(threadId, contexts);
      StoreKeepsSound(s, key, d.(prompt := EnsurePlaceholders(d.prompt, |n|), terminalContexts := n));
    case ContextInserted(prompt, context, index) =>
      if Inserts(s, key, threadId, context) {
        var x, at := Normalize(threadId, context).value, Clamp(index, |d.terminalContexts|);
        NormalizeIsWellFormed(threadId, context);
        InsertedIsSound(d.terminalContexts, x, at);
        var next := d.(prompt := prompt, terminalContexts := d.terminalContexts[..at] + [x] + d.terminalContexts[at..]);
        assert !ShouldRemoveDraft(next);
        StoreKeepsSound(s, key, next);
      }
    case ContextsAdded(contexts) =>
      AddedContexts(s, key, threadId, contexts);
      var accepted := Accept(CONTEXTS, d.terminalContexts, NormalizedAll(threadId, contexts));
      var next := d.terminalContexts + accepted;
      if accepted != [] {
        var e := d.(prompt := EnsurePlaceholders(d.prompt, |next|), terminalContexts := next);
        assert !ShouldRemoveDraft(e);
        StoreKeepsSound(s, key, e);
      }
    case ContextRemoved(id) =>
      ContextsLeftAreSound(d.terminalContexts, id);
      StoreKeepsSound(s, key, d.(terminalContexts := Except(CONTEXTS.id, d.terminalContexts, {id})));
  }

  lemma ImageActionsKeepSound(s: Store, key: string, images: seq<Image>, id: string)
    requires Sound(s)
    ensures Sound(AddImages(s, key, images)) && Sound(RemoveImage(s, key, id))
  {
    hide Accept, DistinctItems, Sound, StoreOrRemove, Except;
    var d := DraftOrEmpty(s, key);
    DraftIsSound(s, key);
    var accepted := Accept(IMAGES, d.images, images);
    AcceptIsDistinct(IMAGES, d.images, images);
    if accepted != [] {
      var next := d.(images := d.images + accepted);
      assert !ShouldRemoveDraft(next);
      StoreKeepsSound(s, key, next);
    }
    if key in s.drafts {
      ExceptIsDistinct(IMAGES, d.images, {id});
      StoreKeepsSound(s, key, d.(images := Except(IMAGES.id, d.images, {id}),
                                 nonPersistedImageIds := Except(SELF, d.nonPersistedImageIds, {id}),
                                 persistedAttachments := Except(ATTACHMENT_ID, d.persistedAttachments, {id})));
    }
  }

  predicate IsPlainEdit(edit: Edit) {
    || edit.PromptSet? || edit.ModelsSet? || edit.RuntimeModeSet? || edit.InteractionModeSet? || edit.ContextsCleared?
    || edit.AttachmentsCleared? || edit.AttachmentsSynced? || edit.AttachmentsVerified? || edit.ContentCleared?
  }

  /** Edits that neither add nor reorder images and contexts end in `StoreOrRemove`. */
  lemma PlainEdit(s: Store, key: string, threadId: Option<string>, edit: Edit) returns (next: Draft)
    requires IsPlainEdit(edit)
    ensures Apply(s, key, threadId, edit) == s || Apply(s, key, threadId, edit) == StoreOrRemove(s, key, next)
    ensures next.images == DraftOrEmpty(s, key).images || next.images == []
    ensures next.terminalContexts == DraftOrEmpty(s, key).terminalContexts || next.terminalContexts == []
  {
    hide ShouldRemoveDraft, StoreOrRemove, Except, AttachmentIds, ImageIds, NormalizeContexts, Accept;
    var d := DraftOrEmpty(s, key);
    next := match edit
      case PromptSet(prompt) => d.(prompt := prompt)
      case ModelsSet(models, activeProvider) => d.(models := models, activeProvider := activeProvider)
      case RuntimeModeSet(mode) => d.(runtimeMode := mode)
      case InteractionModeSet(mode) => d.(interactionMode := mode)
      case ContextsCleared => d.(terminalContexts := [])
      case AttachmentsCleared => d.(persistedAttachments := [], nonPersistedImageIds := [])
      case AttachmentsSynced(attachments) =>
        d.(persistedAttachments := attachments,
           nonPersistedImageIds := Except(SELF, d.nonPersistedImageIds, AttachmentIds(attachments)))
      case AttachmentsVerified(attachments, persisted) =>
        var shown := set i | 0 <= i < |d.images| :: d.images[i].id;
        d.(persistedAttachments := Except(ATTACHMENT_ID, attachments, AttachmentIds(attachments) - shown * persisted),
           nonPersistedImageIds := Except(SELF, ImageIds(d.images), persisted))
      case _ =>
        d.(prompt := "", images := [], nonPersistedImageIds := [], persistedAttachments := [], terminalContexts := []);
  }

  lemma PlainEditKeepsSound(s: Store, key: string, threadId: Option<string>, edit: Edit)
    requires Sound(s) && IsPlainEdit(edit)
    ensures Sound(Apply(s, key, threadId, edit))
  {
    hide Apply, DraftOrEmpty, IsPlainEdit, ShouldRemoveDraft, Sound, StoreOrRemove;
    var next := PlainEdit(s, key, threadId, edit);
    DraftIsSound(s, key);
    assert ItemsSound(next);
    StoreKeepsSound(s, key, next);
  }

  // Sessions stay sound

  lemma RemoveKeepsSound(s: Store, key: string)
    requires Sound(s)
    ensures Sound(RemoveReferences(s, key))
  {
    hide ItemsSound, ShouldRemoveDraft;
    var t := RemoveReferences(s, key);
    forall k | k in t.sessions ensures Promoting(t, k) || InUse(t.mappings, k) {
      if p :| p in s.mappings && s.mappings[p] == k {
        assert p in t.mappings && t.mappings[p] == k;
      }
    }
  }

  /** Replacing a session by one that is promoted at least as much. */
  lemma ReplaceKeepsSound(s: Store, key: string, session: Session)
    requires Sound(s) && key in s.sessions && (s.sessions[key].promotedTo.Some? ==> session.promotedTo.Some?)
    ensures Sound(s.(sessions := s.sessions[key := session]))
  {
    hide ItemsSound, ShouldRemoveDraft, InUse;
  }

  /** A project is given a session, and the one it had before may be left over. */
  ghost predicate SoundBut(s: Store, previous: Option<string>) {
    && DraftsSound(s) && "" !in s.sessions
    && (forall p | p in s.mappings :: s.mappings[p] in s.sessions)
    && (forall k | k in s.sessions :: Promoting(s, k) || InUse(s.mappings, k) || previous == Some(k))
  }

  lemma GivenSession(s: Store, projectKey: string, draftId: string, session: Session)
    requires Sound(s) && draftId != ""
    ensures SoundBut(Store(s.drafts, s.sessions[draftId := session], s.mappings[projectKey := draftId]),
                     if projectKey in s.mappings then Some(s.mappings[projectKey]) else None)
  {
    var t := Store(s.drafts, s.sessions[draftId := session], s.mappings[projectKey := draftId]);
    assert DraftsSound(t);
    forall k | k in t.sessions
      ensures Promoting(t, k) || InUse(t.mappings, k) || (projectKey in s.mappings && s.mappings[projectKey] == k)
    {
      if k == draftId {
        assert t.mappings[projectKey] == k;
      } else if p :| p in s.mappings && s.mappings[p] == k {
        assert p != projectKey ==> t.mappings[p] == k;
      }
    }
  }

  lemma DropKeepsSound(s: Store, previous: Option<string>, draftId: string)
    requires SoundBut(s, previous) && InUse(s.mappings, draftId)
    ensures Sound(DropReplaced(s, previous, draftId))
  {
    hide ItemsSound, ShouldRemoveDraft;
    var t := DropReplaced(s, previous, draftId);
    if t != s {
      forall p | p in t.mappings ensures t.mappings[p] in t.sessions {
        assert InUse(s.mappings, s.mappings[p]);
      }
    }
  }

  lemma SetSessionKeepsSound(s: Store, logicalProjectKey: string, project: ProjectRef, draftId: string, options: Options, now: string)
    requires Sound(s)
    ensures Sound(SetProjectSession(s, logicalProjectKey, project, draftId, options, now))
  {
    hide DropReplaced, NextSession, Sound, SoundBut, Trim;
    var projectKey := Trim(logicalProjectKey);
    if projectKey != "" && draftId != "" {
      var session := NextSession(s, projectKey, project, draftId, options, now);
      var next := Store(s.drafts, s.sessions[draftId := session], s.mappings[projectKey := draftId]);
      GivenSession(s, projectKey, draftId, session);
      assert InUse(next.mappings, draftId) by {
        assert next.mappings[projectKey] == draftId;
      }
      DropKeepsSound(next, if projectKey in s.mappings then Some(s.mappings[projectKey]) else None, draftId);
    }
  }

  predicate IsSessionEdit(edit: Edit) {
    || edit.SessionContextSet? || edit.ProjectSessionCleared? || edit.Promoted? || edit.PromotionFinalized?
    || edit.DraftCleared?
  }

  lemma SessionEditKeepsSound(s: Store, key: string, threadId: Option<string>, edit: Edit)
    requires Sound(s) && IsSessionEdit(edit)
    ensures Sound(Apply(s, key, threadId, edit))
  {
    hide Sound, NextEnvMode;
    RemoveKeepsSound(s, key);
    if key in s.sessions && (edit.SessionContextSet? || edit.Promoted?) {
      var t := Apply(s, key, threadId, edit);
      ReplaceKeepsSound(s, key, t.sessions[key]);
    }
  }

  // All actions

  lemma ApplyKeepsSound(s: Store, key: string, threadId: Option<string>, edit: Edit)
    requires Sound(s)
    ensures Sound(Apply(s, key, threadId, edit))
  {
    hide AddImages, RemoveImage, Sound;
    if IsPlainEdit(edit) {
      PlainEditKeepsSound(s, key, threadId, edit);
    } else if IsSessionEdit(edit) {
      SessionEditKeepsSound(s, key, threadId, edit);
    } else if edit.ImageAdded? || edit.ImagesAdded? || edit.ImageRemoved? {
      ImageActionsKeepSound(s, key, if edit.ImageAdded? then [edit.image] else if edit.ImagesAdded? then edit.images else [],
                            if edit.ImageRemoved? then edit.id else "");
    } else if threadId.Some? {
      ContextActionsKeepSound(s, key, threadId.value, edit);
    } else if edit.ContextRemoved? {
      ContextActionsKeepSound(s, key, "", edit);
    }
  }

  lemma StepKeepsSound(s: Store, action: Action, t: Store)
    requires Sound(s) && Steps(s, action, t)
    ensures Sound(t)
  {
    hide Apply, OfProject, RemoveReferences, Resolves, SetProjectSession, Sound, ThreadIdOf;
    match action
    case OnTarget(target, edit) =>
      if key :| Resolves(s, target, key) && t == Apply(s, key, ThreadIdOf(s, target), edit) {
        ApplyKeepsSound(s, key, ThreadIdOf(s, target), edit);
      }
    case SessionSet(logicalProjectKey, project, draftId, options, now) =>
      SetSessionKeepsSound(s, logicalProjectKey, project, draftId, options, now);
    case ProjectCleared(project) =>
      if key :| key in s.sessions && OfProject(s.sessions[key], project) && t == RemoveReferences(s, key) {
        RemoveKeepsSound(s, key);
      }
  }

  ghost predicate IsRun(actions: seq<Action>, states: seq<Store>) {
    && |states| == |actions| + 1 && states[0] == EMPTY_STORE
    && forall i | 0 <= i < |actions| :: Steps(states[i], actions[i], states[i + 1])
  }

  /** In every state that actions can lead to from the empty store: every project points at a session,
      every session is pointed at or being promoted, no empty draft is kept, images and terminal
      contexts are listed once and the contexts are readable. */
  lemma {:induction false} ReachableIsSound(actions: seq<Action>, states: seq<Store>, i: nat)
    requires IsRun(actions, states) && i <= |actions|
    ensures Sound(states[i])
  {
    hide Sound, Steps;
    if i == 0 {
      EmptyIsSound();
    } else {
      ReachableIsSound(actions, states, i - 1);
      StepKeepsSound(states[i - 1], actions[i - 1], states[i]);
    }
  }
}
