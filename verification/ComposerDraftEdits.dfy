/** What each edit of a draft writes, read back through the store. */
module ComposerDraftEdits {
  import opened Text
  import opened Sequences
  import opened Deduplication
  import opened ComposerDraftItems
  import opened ComposerDraftStore
  import opened ComposerDraftLaws

  // A sparse map behind a total one

  /** What the store keeps of a draft: an empty one is not kept, and reads as the empty draft. */
  function Kept(d: Draft): Draft {
    if ShouldRemoveDraft(d) then EMPTY_DRAFT else d
  }

  /** The store of drafts refines a total map: what is stored is read back as kept, and kept is
      everything, unless a draft is empty but for ids of images not persisted. */
  lemma StoredReadsBack(s: Store, key: string, d: Draft)
    ensures DraftOrEmpty(StoreOrRemove(s, key, d), key) == Kept(d)
    ensures Kept(d) == d <==> !ShouldRemoveDraft(d) || d.nonPersistedImageIds == []
    ensures Kept(d).(nonPersistedImageIds := d.nonPersistedImageIds) == d
    ensures key in StoreOrRemove(s, key, d).drafts <==> Kept(d) != EMPTY_DRAFT
  {}

  /** The draft at `key` after an edit. */
  function After(s: Store, key: string, edit: Edit): Draft {
    DraftOrEmpty(Apply(s, key, None, edit), key)
  }

  /** In a sound store every draft is kept as it is. */
  lemma SoundIsKept(s: Store, key: string)
    requires Sound(s)
    ensures Kept(DraftOrEmpty(s, key)) == DraftOrEmpty(s, key)
  {
    hide ItemsSound, SessionsSound;
  }

  lemma PromptWritten(s: Store, key: string, prompt: string)
    ensures After(s, key, PromptSet(prompt)) == Kept(DraftOrEmpty(s, key).(prompt := prompt))
  {
    hide ShouldRemoveDraft, StoreOrRemove, DraftOrEmpty, Kept;
    StoredReadsBack(s, key, DraftOrEmpty(s, key).(prompt := prompt));
  }

  lemma ModeWritten(s: Store, key: string, mode: Option<string>)
    requires Sound(s)
    ensures After(s, key, RuntimeModeSet(mode)) == Kept(DraftOrEmpty(s, key).(runtimeMode := mode))
    ensures After(s, key, InteractionModeSet(mode)) == Kept(DraftOrEmpty(s, key).(interactionMode := mode))
  {
    hide ShouldRemoveDraft, StoreOrRemove, DraftOrEmpty, Kept, Sound;
    SoundIsKept(s, key);
    var d := DraftOrEmpty(s, key);
    assert d.(runtimeMode := d.runtimeMode) == d && d.(interactionMode := d.interactionMode) == d;
    StoredReadsBack(s, key, d.(runtimeMode := mode));
    StoredReadsBack(s, key, d.(interactionMode := mode));
  }

  lemma ModelsWritten(s: Store, key: string, models: map<string, string>, provider: Option<string>)
    requires Sound(s)
    ensures After(s, key, ModelsSet(models, provider)) ==
            Kept(DraftOrEmpty(s, key).(models := models, activeProvider := provider))
  {
    hide ShouldRemoveDraft, StoreOrRemove, DraftOrEmpty, Kept, Sound;
    SoundIsKept(s, key);
    var d := DraftOrEmpty(s, key);
    assert d.(models := d.models, activeProvider := d.activeProvider) == d;
    StoredReadsBack(s, key, d.(models := models, activeProvider := provider));
  }

  /** Setting the prompt, a mode or the models writes these fields and leaves every other as it was,
      the ids of images not persisted included; in particular the last of several settings wins, and
      settings of different fields do not disturb each other. */
  lemma EditWrites(s: Store, key: string, prompt: string, mode: Option<string>, models: map<string, string>,
                   provider: Option<string>)
    requires Sound(s)
    ensures var d := DraftOrEmpty(s, key);
            && After(s, key, PromptSet(prompt)) == Kept(d.(prompt := prompt))
            && After(s, key, RuntimeModeSet(mode)) == Kept(d.(runtimeMode := mode))
            && After(s, key, InteractionModeSet(mode)) == Kept(d.(interactionMode := mode))
            && After(s, key, ModelsSet(models, provider)) == Kept(d.(models := models, activeProvider := provider))
  {
    hide After, Kept, DraftOrEmpty, Sound;
    PromptWritten(s, key, prompt);
    ModeWritten(s, key, mode);
    ModelsWritten(s, key, models, provider);
  }

  lemma ContextsGone(s: Store, key: string)
    requires Sound(s) && key in s.drafts
    ensures After(s, key, ContextsCleared) == Kept(s.drafts[key].(terminalContexts := []))
  {
    hide ShouldRemoveDraft, StoreOrRemove, Kept, Sound;
    SoundIsKept(s, key);
    var d := s.drafts[key];
    StoredReadsBack(s, key, d.(terminalContexts := []));
    assert d.terminalContexts == [] ==> d.(terminalContexts := []) == d;
  }

  lemma AttachmentsGone(s: Store, key: string, attachments: seq<Attachment>)
    requires key in s.drafts
    ensures var d, left := s.drafts[key], Except(SELF, s.drafts[key].nonPersistedImageIds, AttachmentIds(attachments));
            && After(s, key, AttachmentsCleared) == Kept(d.(persistedAttachments := [], nonPersistedImageIds := []))
            && After(s, key, AttachmentsSynced(attachments)) ==
                 Kept(d.(persistedAttachments := attachments, nonPersistedImageIds := left))
  {
    hide ShouldRemoveDraft, StoreOrRemove, AttachmentIds, Except, Kept;
    var d, left := s.drafts[key], Except(SELF, s.drafts[key].nonPersistedImageIds, AttachmentIds(attachments));
    StoredReadsBack(s, key, d.(persistedAttachments := [], nonPersistedImageIds := []));
    StoredReadsBack(s, key, d.(persistedAttachments := attachments, nonPersistedImageIds := left));
  }

  lemma ContentGone(s: Store, key: string)
    requires key in s.drafts
    ensures var d := s.drafts[key];
            After(s, key, ContentCleared) ==
              EMPTY_DRAFT.(models := d.models, activeProvider := d.activeProvider, runtimeMode := d.runtimeMode,
                           interactionMode := d.interactionMode)
  {
    hide StoreOrRemove;
    var d := s.drafts[key];
    StoredReadsBack(s, key, EMPTY_DRAFT.(models := d.models, activeProvider := d.activeProvider,
                                         runtimeMode := d.runtimeMode, interactionMode := d.interactionMode));
  }

  /** Clearing the content keeps the chosen model, provider and modes; the other clearing edits take
      away their own list. When the attachments go, no image is listed as not persisted any more; a new
      list of attachments unlists just its own images. */
  lemma EditClears(s: Store, key: string, attachments: seq<Attachment>)
    requires Sound(s) && key in s.drafts
    ensures var d, left := s.drafts[key], Except(SELF, s.drafts[key].nonPersistedImageIds, AttachmentIds(attachments));
            && After(s, key, ContextsCleared) == Kept(d.(terminalContexts := []))
            && After(s, key, AttachmentsCleared) == Kept(d.(persistedAttachments := [], nonPersistedImageIds := []))
            && After(s, key, AttachmentsSynced(attachments)) ==
                 Kept(d.(persistedAttachments := attachments, nonPersistedImageIds := left))
            && After(s, key, ContentCleared) ==
                 EMPTY_DRAFT.(models := d.models, activeProvider := d.activeProvider, runtimeMode := d.runtimeMode,
                              interactionMode := d.interactionMode)
  {
    hide After, Kept, AttachmentIds, Except, Sound;
    ContextsGone(s, key);
    AttachmentsGone(s, key, attachments);
    ContentGone(s, key);
  }

  /** Removing an image takes its id out of all three lists that may name it, keeps their order, and
      changes nothing else. */
  lemma RemovedImage(s: Store, key: string, id: string)
    requires key in s.drafts
    ensures var d := s.drafts[key];
            After(s, key, ImageRemoved(id)) ==
              Kept(d.(images := Except(IMAGES.id, d.images, {id}),
                      persistedAttachments := Except(ATTACHMENT_ID, d.persistedAttachments, {id}),
                      nonPersistedImageIds := Except(SELF, d.nonPersistedImageIds, {id})))
    ensures var r := After(s, key, ImageRemoved(id));
            && (forall image | image in r.images :: image.id != id)
            && (forall attachment | attachment in r.persistedAttachments :: attachment.id != id)
            && id !in r.nonPersistedImageIds
  {
    hide ShouldRemoveDraft, StoreOrRemove, Except, Kept;
    var d := s.drafts[key];
    var next := d.(images := Except(IMAGES.id, d.images, {id}),
                   persistedAttachments := Except(ATTACHMENT_ID, d.persistedAttachments, {id}),
                   nonPersistedImageIds := Except(SELF, d.nonPersistedImageIds, {id}));
    StoredReadsBack(s, key, next);
    IdIsGone(next, d, id);
  }

  lemma IdIsGone(next: Draft, d: Draft, id: string)
    requires next.images == Except(IMAGES.id, d.images, {id})
    requires next.persistedAttachments == Except(ATTACHMENT_ID, d.persistedAttachments, {id})
    requires next.nonPersistedImageIds == Except(SELF, d.nonPersistedImageIds, {id})
    ensures var r := Kept(next);
            && (forall image | image in r.images :: image.id != id)
            && (forall attachment | attachment in r.persistedAttachments :: attachment.id != id)
            && id !in r.nonPersistedImageIds
  {
    hide ShouldRemoveDraft, Except;
    forall image | image in next.images ensures image.id != id { ExceptMember(IMAGES.id, d.images, {id}, image); }
    forall attachment | attachment in next.persistedAttachments ensures attachment.id != id {
      ExceptMember(ATTACHMENT_ID, d.persistedAttachments, {id}, attachment);
    }
    ExceptMember(SELF, d.nonPersistedImageIds, {id}, id);
  }

  /** After the storage has been looked at, every image of the draft is accounted for: the attachments
      kept are those that were stored and whose image is still there, and the ids listed as not
      persisted are exactly those of the images that were not stored, in the order of the images. The
      rest of the draft stays. */
  lemma VerifiedAttachments(s: Store, key: string, attachments: seq<Attachment>, persisted: set<string>, x: Attachment,
                            id: string)
    requires Sound(s) && key in s.drafts
    ensures var d, r := s.drafts[key], After(s, key, AttachmentsVerified(attachments, persisted));
            && (x in r.persistedAttachments <==> x in attachments && x.id in persisted && x.id in ImageIds(d.images))
            && (id in r.nonPersistedImageIds <==> id in ImageIds(d.images) && id !in persisted)
            && r.nonPersistedImageIds == Except(SELF, ImageIds(d.images), persisted)
            && r == Kept(d.(persistedAttachments := r.persistedAttachments, nonPersistedImageIds := r.nonPersistedImageIds))
  {
    hide ImageIds, ShouldRemoveDraft, StoreOrRemove, Except, Sound, Kept;
    var d := s.drafts[key];
    var shown := set i | 0 <= i < |d.images| :: d.images[i].id;
    var gone := AttachmentIds(attachments) - shown * persisted;
    var next := d.(persistedAttachments := Except(ATTACHMENT_ID, attachments, gone),
                   nonPersistedImageIds := Except(SELF, ImageIds(d.images), persisted));
    StoredReadsBack(s, key, next);
    VerifiedIsKept(d, next, persisted);
    ExceptMember(ATTACHMENT_ID, attachments, gone, x);
    ExceptMember(SELF, ImageIds(d.images), persisted, id);
    ShownIds(d.images, x.id);
    assert x in attachments ==> x.id in AttachmentIds(attachments);
  }

  lemma ShownIds(images: seq<Image>, id: string)
    ensures id in ImageIds(images) <==> exists i :: 0 <= i < |images| && images[i].id == id
  {
    if i :| 0 <= i < |images| && images[i].id == id { assert ImageIds(images)[i] == id; }
  }

  /** Without images no id is listed, so an empty draft loses nothing here. */
  lemma VerifiedIsKept(d: Draft, next: Draft, persisted: set<string>)
    requires next.images == d.images && next.nonPersistedImageIds == Except(SELF, ImageIds(d.images), persisted)
    ensures Kept(next) == next
  {
    if ShouldRemoveDraft(next) {
      assert ImageIds(d.images) == [];
    }
  }

  // Terminal contexts

  /** Setting the contexts replaces them by the readable ones of the list, once each, and completes the
      placeholders of the prompt; without a thread nothing happens. */
  lemma ContextsAreSet(s: Store, key: string, threadId: string, contexts: seq<Context>)
    ensures var d, kept := DraftOrEmpty(s, key), NormalizeContexts(threadId, contexts);
            DraftOrEmpty(Apply(s, key, Some(threadId), ContextsSet(contexts)), key) ==
              Kept(d.(prompt := EnsurePlaceholders(d.prompt, |kept|), terminalContexts := kept))
    ensures Apply(s, key, None, ContextsSet(contexts)) == s
  {
    hide ShouldRemoveDraft, StoreOrRemove, DraftOrEmpty, Kept, NormalizeContexts, EnsurePlaceholders;
    var d, kept := DraftOrEmpty(s, key), NormalizeContexts(threadId, contexts);
    StoredReadsBack(s, key, d.(prompt := EnsurePlaceholders(d.prompt, |kept|), terminalContexts := kept));
  }

  /** Adding contexts puts the new ones behind the old and completes the placeholders of the prompt. */
  lemma ContextsAreAdded(s: Store, key: string, threadId: string, contexts: seq<Context>)
    requires Sound(s)
    ensures var d, r := DraftOrEmpty(s, key), DraftOrEmpty(Apply(s, key, Some(threadId), ContextsAdded(contexts)), key);
            var accepted := Accept(CONTEXTS, d.terminalContexts, NormalizedAll(threadId, contexts));
            && r.terminalContexts == d.terminalContexts + accepted
            && r == d.(prompt := r.prompt, terminalContexts := r.terminalContexts)
            && r.prompt == (if accepted == [] then d.prompt else EnsurePlaceholders(d.prompt, |r.terminalContexts|))
    ensures Apply(s, key, None, ContextsAdded(contexts)) == s
  {
    hide ShouldRemoveDraft, Accept, NormalizedAll, EnsurePlaceholders, Sound, AddTerminalContexts;
    AddedContexts(s, key, threadId, contexts);
    var d := DraftOrEmpty(s, key);
    assert d.terminalContexts + [] == d.terminalContexts;
  }

  /** In a sound store a context is taken in exactly when it is readable and no context of the draft has
      its id or its stretch of lines. */
  lemma InsertsExactlyWhen(s: Store, key: string, threadId: string, context: Context)
    requires Sound(s)
    ensures Inserts(s, key, threadId, context) <==>
      && Trim(context.terminalId) != "" && Trim(context.terminalLabel) != ""
      && var x := Normalize(threadId, context).value;
         forall y | y in DraftOrEmpty(s, key).terminalContexts ::
           y.id != x.id && !(y.terminalId == x.terminalId && y.lineStart == x.lineStart && y.lineEnd == x.lineEnd)
  {
    hide Trim, Normalize, ShouldRemoveDraft, SessionsSound, ContextKey, WellFormed;
    NormalizeReads(threadId, context);
    NormalizeIsWellFormed(threadId, context);
    DraftIsSound(s, key);
    var kept := DraftOrEmpty(s, key).terminalContexts;
    if Normalize(threadId, context).Some? {
      var x := Normalize(threadId, context).value;
      forall k | 0 <= k < |kept|
        ensures Same(CONTEXTS, kept[k], x) <==>
          || kept[k].id == x.id
          || (kept[k].terminalId == x.terminalId && kept[k].lineStart == x.lineStart && kept[k].lineEnd == x.lineEnd)
      {
        ContextKeyIsStretch(kept[k], x);
      }
      ClashesExactlyWhen(kept, x);
    }
  }

  lemma ClashesExactlyWhen(kept: seq<Context>, x: Context)
    ensures Clashes(CONTEXTS, x, kept) <==> exists k :: 0 <= k < |kept| && Same(CONTEXTS, kept[k], x)
  {}

  /** An inserted context stands at the index asked for, or at the nearer end; the others keep their order,
      and the prompt is the one that came with it. */
  lemma ContextIsInserted(s: Store, key: string, threadId: string, prompt: string, context: Context, index: int)
    requires Inserts(s, key, threadId, context)
    ensures var d, r := DraftOrEmpty(s, key), DraftOrEmpty(Apply(s, key, Some(threadId), ContextInserted(prompt, context, index)), key);
            var n := |d.terminalContexts|;
            var at := if index <= 0 then 0 else if index >= n then n else index;
            && r == d.(prompt := prompt, terminalContexts := r.terminalContexts)
            && |r.terminalContexts| == n + 1 && Some(r.terminalContexts[at]) == Normalize(threadId, context)
            && r.terminalContexts[..at] == d.terminalContexts[..at] && r.terminalContexts[at + 1..] == d.terminalContexts[at..]
    ensures Apply(s, key, None, ContextInserted(prompt, context, index)) == s
  {
    hide Normalize, Clashes, ShouldRemoveDraft;
  }

  /** Removing a context takes out the one with the id and keeps the others in their order; an empty id
      names none. */
  lemma RemovedContext(s: Store, key: string, id: string)
    requires Sound(s) && key in s.drafts
    ensures var d := s.drafts[key];
            After(s, key, ContextRemoved(id)) ==
              Kept(d.(terminalContexts := if id == "" then d.terminalContexts else Except(CONTEXTS.id, d.terminalContexts, {id})))
    ensures id != "" ==> forall x | x in After(s, key, ContextRemoved(id)).terminalContexts :: x.id != id
  {
    hide ShouldRemoveDraft, StoreOrRemove, Except, Kept, Sound;
    SoundIsKept(s, key);
    var d := s.drafts[key];
    var left := Except(CONTEXTS.id, d.terminalContexts, {id});
    StoredReadsBack(s, key, d.(terminalContexts := left));
    forall x | x in left ensures x.id != id { ExceptMember(CONTEXTS.id, d.terminalContexts, {id}, x); }
    KeptContexts(d.(terminalContexts := left));
  }

  lemma KeptContexts(d: Draft)
    ensures Kept(d).terminalContexts == d.terminalContexts
  {}

  /** Adding one image is adding a list of it, as long as there is a thread. */
  lemma OneImage(s: Store, key: string, threadId: Option<string>, image: Image)
    ensures Apply(s, key, threadId, ImageAdded(image)) ==
            if threadId.None? then s else Apply(s, key, threadId, ImagesAdded([image]))
  {
    hide Accept;
  }
}
