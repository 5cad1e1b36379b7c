/** The composer draft store at work (`apps/web/src/composerDraftStore.ts`): actions that replace its
    three maps, with the early returns of the program. */
module ComposerDraftActions {
  import opened Text
  import opened Sequences
  import opened Deduplication
  import opened ComposerDraftItems
  import opened ComposerDraftStore
  import opened ComposerDraftLaws
  import opened Scoped

  class DraftStore {
    var drafts: map<string, Draft>
    var sessions: map<string, Session>
    var mappings: map<string, string>

    function View(): Store
      reads this
    {
      Store(drafts, sessions, mappings)
    }

    ghost predicate Valid()
      reads this
    {
      Sound(View())
    }

    constructor ()
      ensures Valid() && View() == EMPTY_STORE
    {
      drafts, sessions, mappings := map[], map[], map[];
      new;
      EmptyIsSound();
    }

    /** `resolveComposerDraftKey`: the loop over the sessions stops at the first that belongs to the
        thread, here in any order. */
    method ResolveComposerDraftKey(target: Target) returns (key: Option<string>)
      ensures key.Some? ==> Resolves(View(), target, key.value)
      ensures key.None? ==> forall k :: !Resolves(View(), target, k)
      ensures key.Some? ==> key.value != "" || "" in sessions
    {
      match target
      case DraftTarget(draftId) =>
        key := if Trim(draftId) == "" then None else Some(Trim(draftId));
      case ThreadTarget(ref) =>
        if ThreadKey(ref) in drafts {
          return Some(ThreadKey(ref));
        }
        var todo := sessions.Keys;
        while todo != {}
          invariant todo <= sessions.Keys
          invariant forall k | k in sessions && k !in todo :: !Belongs(sessions[k], ref)
          decreases |todo|
        {
          var k :| k in todo;
          if Belongs(sessions[k], ref) {
            return Some(k);
          }
          todo := todo - {k};
        }
        key := Some(ThreadKey(ref));
    }

    /** How an action on a target changes the store, and that it stays sound. */
    twostate predicate Took(target: Target, edit: Edit)
      reads this
    {
      Steps(old(View()), OnTarget(target, edit), View()) && Valid()
    }

    /** What the actions do with a draft they have edited. */
    method Keep(key: string, next: Draft)
      modifies this`drafts
      ensures View() == StoreOrRemove(old(View()), key, next)
    {
      if ShouldRemoveDraft(next) {
        drafts := drafts - {key};
      } else {
        drafts := drafts[key := next];
      }
    }

    method SetPromptOf(target: Target, prompt: string)
      requires Valid()
      modifies this`drafts
      ensures Took(target, PromptSet(prompt))
    {
      hide DraftOrEmpty, Resolves, Sound, StoreOrRemove, ThreadIdOf, View;
      ghost var s := View();
      var key := ResolveComposerDraftKey(target);
      if key.None? {
        return;
      }
      var existing := DraftOrEmpty(View(), key.value);
      Keep(key.value, existing.(prompt := prompt));
      ApplyKeepsSound(s, key.value, ThreadIdOf(s, target), PromptSet(prompt));
      assert View() == Apply(s, key.value, ThreadIdOf(s, target), PromptSet(prompt));
    }

    method AddImagesTo(target: Target, images: seq<Image>)
      requires Valid()
      modifies this`drafts
      ensures Took(target, ImagesAdded(images))
    {
      hide Accept, DraftOrEmpty, Resolves, Sound, ThreadIdOf;
      ghost var s := View();
      var key := ResolveComposerDraftKey(target);
      if key.None? {
        return;
      }
      ApplyKeepsSound(s, key.value, ThreadIdOf(s, target), ImagesAdded(images));
      var existing := DraftOrEmpty(View(), key.value);
      var dedupedIncoming := AcceptItems(IMAGES, existing.images, images);
      if |dedupedIncoming| == 0 {
        return;
      }
      drafts := drafts[key.value := existing.(images := existing.images + dedupedIncoming)];
    }

    method RemoveImageFrom(target: Target, imageId: string)
      requires Valid()
      modifies this`drafts
      ensures Took(target, ImageRemoved(imageId))
    {
      hide Resolves, Sound, StoreOrRemove, ThreadIdOf, Except;
      ghost var s := View();
      var key := ResolveComposerDraftKey(target);
      if key.None? {
        return;
      }
      ApplyKeepsSound(s, key.value, ThreadIdOf(s, target), ImageRemoved(imageId));
      if key.value !in drafts {
        return;
      }
      var current := drafts[key.value];
      Keep(key.value, current.(images := Except(IMAGES.id, current.images, {imageId}),
                               nonPersistedImageIds := Except(SELF, current.nonPersistedImageIds, {imageId}),
                               persistedAttachments := Except(ATTACHMENT_ID, current.persistedAttachments, {imageId})));
    }

    /** Returns whether the context was taken in, at the key the target resolved to. */
    method InsertTerminalContextInto(target: Target, prompt: string, context: Context, index: int)
      returns (inserted: bool, ghost key: Option<string>)
      requires Valid()
      modifies this`drafts
      ensures Took(target, ContextInserted(prompt, context, index))
      ensures key.Some? ==> Resolves(old(View()), target, key.value)
      ensures var threadId := ThreadIdOf(old(View()), target);
              inserted <==> key.Some? && threadId.Some? && Inserts(old(View()), key.value, threadId.value, context)
    {
      hide Clashes, DraftOrEmpty, Normalize, Resolves, Sound, ThreadIdOf;
      ghost var s := View();
      inserted := false;
      var resolved := ResolveComposerDraftKey(target);
      key := resolved;
      var threadId := ThreadIdOf(View(), target);
      if resolved.None? {
        return;
      }
      ApplyKeepsSound(s, resolved.value, threadId, ContextInserted(prompt, context, index));
      if threadId.None? {
        return;
      }
      var existing := DraftOrEmpty(View(), resolved.value);
      var normalized := Normalize(threadId.value, context);
      if normalized.None? || Clashes(CONTEXTS, normalized.value, existing.terminalContexts) {
        return;
      }
      inserted := true;
      var contexts := existing.terminalContexts;
      var at := Clamp(index, |contexts|);
      drafts := drafts[resolved.value :=
        existing.(prompt := prompt, terminalContexts := contexts[..at] + [normalized.value] + contexts[at..])];
    }

    method AddTerminalContextsTo(target: Target, contexts: seq<Context>)
      requires Valid()
      modifies this`drafts
      ensures Took(target, ContextsAdded(contexts))
    {
      hide Accept, AddTerminalContexts, AllWellFormed, DistinctItems, DraftOrEmpty, EnsurePlaceholders, NormalizeContexts, NormalizedAll, Resolves, Sound, ThreadIdOf;
      ghost var s := View();
      var key := ResolveComposerDraftKey(target);
      var threadId := ThreadIdOf(View(), target);
      if key.None? {
        return;
      }
      ApplyKeepsSound(s, key.value, threadId, ContextsAdded(contexts));
      if threadId.None? {
        return;
      }
      var existing := DraftOrEmpty(View(), key.value);
      AddedContexts(s, key.value, threadId.value, contexts);
      DraftIsSound(s, key.value);
      var all := NormalizeTerminalContextsForThread(threadId.value, existing.terminalContexts + contexts);
      SliceIsNew(threadId.value, existing.terminalContexts, contexts);
      var accepted := all[|existing.terminalContexts|..];
      if |accepted| == 0 {
        return;
      }
      drafts := drafts[key.value := existing.(
        prompt := EnsurePlaceholders(existing.prompt, |existing.terminalContexts| + |accepted|),
        terminalContexts := existing.terminalContexts + accepted)];
    }

    method SetTerminalContextsOf(target: Target, contexts: seq<Context>)
      requires Valid()
      modifies this`drafts
      ensures Took(target, ContextsSet(contexts))
    {
      hide DraftOrEmpty, EnsurePlaceholders, NormalizeContexts, Resolves, Sound, StoreOrRemove, ThreadIdOf, View;
      ghost var s := View();
      var key := ResolveComposerDraftKey(target);
      var threadId := ThreadIdOf(View(), target);
      if key.None? {
        return;
      }
      ApplyKeepsSound(s, key.value, threadId, ContextsSet(contexts));
      if threadId.None? {
        return;
      }
      var normalized := NormalizeTerminalContextsForThread(threadId.value, contexts);
      var existing := DraftOrEmpty(View(), key.value);
      Keep(key.value, existing.(prompt := EnsurePlaceholders(existing.prompt, |normalized|), terminalContexts := normalized));
    }

    method RemoveTerminalContextFrom(target: Target, contextId: string)
      requires Valid()
      modifies this`drafts
      ensures Took(target, ContextRemoved(contextId))
    {
      hide Resolves, Sound, StoreOrRemove, ThreadIdOf, Except;
      ghost var s := View();
      var key := ResolveComposerDraftKey(target);
      if key.None? {
        return;
      }
      ApplyKeepsSound(s, key.value, ThreadIdOf(s, target), ContextRemoved(contextId));
      if contextId == "" || key.value !in drafts {
        return;
      }
      var current := drafts[key.value];
      Keep(key.value, current.(terminalContexts := Except(CONTEXTS.id, current.terminalContexts, {contextId})));
    }

    method ClearComposerContentOf(target: Target)
      requires Valid()
      modifies this`drafts
      ensures Took(target, ContentCleared)
    {
      hide Resolves, Sound, StoreOrRemove, ThreadIdOf;
      ghost var s := View();
      var key := ResolveComposerDraftKey(target);
      if key.None? {
        return;
      }
      ApplyKeepsSound(s, key.value, ThreadIdOf(s, target), ContentCleared);
      if key.value !in drafts {
        return;
      }
      var current := drafts[key.value];
      Keep(key.value, current.(prompt := "", images := [], nonPersistedImageIds := [], persistedAttachments := [],
                               terminalContexts := []));
    }

    // Sessions

    method SetLogicalProjectDraftThreadId(logicalProjectKey: string, project: ProjectRef, draftId: string, options: Options,
                                          now: string)
      requires Valid()
      modifies this
      ensures Steps(old(View()), SessionSet(logicalProjectKey, project, draftId, options, now), View()) && Valid()
    {
      hide InUse, NextSession, Promoting, Sound, Trim;
      ghost var s := View();
      SetSessionKeepsSound(s, logicalProjectKey, project, draftId, options, now);
      var projectKey := Trim(logicalProjectKey);
      if |projectKey| == 0 || |draftId| == 0 {
        return;
      }
      var previous := if projectKey in mappings then Some(mappings[projectKey]) else None;
      var next := NextSession(View(), projectKey, project, draftId, options, now);
      sessions := sessions[draftId := next];
      mappings := mappings[projectKey := draftId];
      if previous.Some? && previous.value != "" && previous.value != draftId
         && !InUse(mappings, previous.value) && !Promoting(View(), previous.value) {
        sessions := sessions - {previous.value};
        drafts := drafts - {previous.value};
      }
    }

    /** `removeDraftThreadReferences` */
    method RemoveDraftThreadReferences(key: string)
      modifies this
      ensures View() == RemoveReferences(old(View()), key)
    {
      mappings := map p | p in mappings && mappings[p] != key :: mappings[p];
      sessions := sessions - {key};
      drafts := drafts - {key};
    }

    method MarkDraftThreadPromoting(target: Target, promotedTo: Option<ThreadRef>)
      requires Valid()
      modifies this`sessions
      ensures Took(target, Promoted(promotedTo))
    {
      hide Or, Resolves, Sound, ThreadIdOf;
      ghost var s := View();
      var key := ResolveComposerDraftKey(target);
      if key.None? {
        return;
      }
      ApplyKeepsSound(s, key.value, ThreadIdOf(s, target), Promoted(promotedTo));
      if key.value !in sessions {
        return;
      }
      var existing := sessions[key.value];
      var next := Or(promotedTo, ThreadRef(existing.environmentId, existing.threadId));
      if existing.promotedTo == Some(next) {
        assert existing.(promotedTo := Some(next)) == existing;
        assert sessions[key.value := existing] == sessions;
        return;
      }
      sessions := sessions[key.value := existing.(promotedTo := Some(next))];
    }

    method FinalizePromotedDraftThread(target: Target)
      requires Valid()
      modifies this
      ensures Took(target, PromotionFinalized)
    {
      hide Promoting, RemoveReferences, Resolves, Sound, ThreadIdOf, View;
      ghost var s := View();
      var key := ResolveComposerDraftKey(target);
      if key.None? {
        return;
      }
      ApplyKeepsSound(s, key.value, ThreadIdOf(s, target), PromotionFinalized);
      if !Promoting(View(), key.value) {
        return;
      }
      RemoveDraftThreadReferences(key.value);
    }

    method ClearDraftThreadOf(target: Target)
      requires Valid()
      modifies this
      ensures Took(target, DraftCleared)
    {
      hide InUse, RemoveReferences, Resolves, Sound, ThreadIdOf;
      ghost var s := View();
      var key := ResolveComposerDraftKey(target);
      if key.None? {
        return;
      }
      ApplyKeepsSound(s, key.value, ThreadIdOf(s, target), DraftCleared);
      if key.value !in sessions && !InUse(mappings, key.value) && key.value !in drafts {
        NothingToRemove(s, key.value);
        return;
      }
      RemoveDraftThreadReferences(key.value);
    }

    method ClearProjectDraftThreadId(project: ProjectRef)
      requires Valid()
      modifies this
      ensures Steps(old(View()), ProjectCleared(project), View()) && Valid()
    {
      hide Keys, OfProject, RemoveReferences, Sound;
      ghost var s := View();
      var todo := sessions.Keys;
      while todo != {}
        invariant todo <= sessions.Keys && View() == s
        invariant forall k | k in sessions && k !in todo :: !OfProject(sessions[k], project)
        decreases |todo|
      {
        var k :| k in todo;
        if OfProject(sessions[k], project) {
          RemoveKeepsSound(s, k);
          RemoveDraftThreadReferences(k);
          return;
        }
        todo := todo - {k};
      }
    }
  }

  lemma NothingToRemove(s: Store, key: string)
    requires key !in s.sessions && !InUse(s.mappings, key) && key !in s.drafts
    ensures RemoveReferences(s, key) == s
  {
    var t := RemoveReferences(s, key);
    assert t.mappings == s.mappings && t.sessions == s.sessions && t.drafts == s.drafts;
  }
}
