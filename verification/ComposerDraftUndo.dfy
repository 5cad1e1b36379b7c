/** How actions on the composer draft store compose: batches, repetition, undoing, and what they leave
    alone. */
module ComposerDraftUndo {
  import opened Text
  import opened Sequences
  import opened Deduplication
  import opened ComposerMentions
  import opened ComposerDraftItems
  import opened ComposerDraftStore
  import opened ComposerDraftLaws
  import opened Scoped

  // Batches

  lemma AddImagesDraft(s: Store, key: string, images: seq<Image>)
    ensures var d := DraftOrEmpty(s, key);
            DraftOrEmpty(AddImages(s, key, images), key) == d.(images := d.images + Accept(IMAGES, d.images, images))
  {
    hide Accept;
    var d := DraftOrEmpty(s, key);
    assert d.images + [] == d.images;
  }

  /** Writing a draft twice is writing it once. */
  lemma WrittenTwice(s: Store, key: string, first: Draft, second: Draft)
    ensures s.(drafts := s.drafts[key := first]).drafts[key := second] == s.drafts[key := second]
  {}

  /** Adding images in two batches is adding them in one. */
  lemma ImagesInBatches(s: Store, key: string, a: seq<Image>, b: seq<Image>)
    ensures AddImages(AddImages(s, key, a), key, b) == AddImages(s, key, a + b)
  {
    hide Accept, DraftOrEmpty;
    var d := DraftOrEmpty(s, key);
    var first := Accept(IMAGES, d.images, a);
    var second := Accept(IMAGES, d.images + first, b);
    AcceptInBatches(IMAGES, d.images, a, b);
    AddImagesDraft(s, key, a);
    Associative(d.images, first, second);
    assert d.images + [] == d.images;
    WrittenTwice(s, key, d.(images := d.images + first), d.(images := d.images + first + second));
    if first == [] {
      assert first + second == second;
    } else if second == [] {
      assert first + second == first;
    } else {
      assert first + second != [];
    }
  }

  /** Adding the same images again changes nothing. */
  lemma ImagesTwice(s: Store, key: string, images: seq<Image>)
    ensures AddImages(AddImages(s, key, images), key, images) == AddImages(s, key, images)
  {
    hide Accept;
    AddImagesDraft(s, key, images);
    OfferedTwice(IMAGES, DraftOrEmpty(s, key).images, images);
  }

  /** `AddTerminalContexts` without the slice. */
  function AddAccepted(s: Store, key: string, accepted: seq<Context>): Store {
    if accepted == [] then s
    else
      var d := DraftOrEmpty(s, key);
      var next := d.terminalContexts + accepted;
      s.(drafts := s.drafts[key := d.(prompt := EnsurePlaceholders(d.prompt, |next|), terminalContexts := next)])
  }

  lemma AddAcceptedTwice(s: Store, key: string, a: seq<Context>, b: seq<Context>)
    ensures AddAccepted(AddAccepted(s, key, a), key, b) == AddAccepted(s, key, a + b)
    ensures DraftOrEmpty(AddAccepted(s, key, a), key).terminalContexts == DraftOrEmpty(s, key).terminalContexts + a
  {
    hide EnsurePlaceholders;
    var d := DraftOrEmpty(s, key);
    if a == [] {
      assert d.terminalContexts + a == d.terminalContexts && a + b == b;
    } else if b == [] {
      assert a + b == a;
    } else {
      assert a + b != [];
      var few, many := d.terminalContexts + a, d.terminalContexts + a + b;
      Associative(d.terminalContexts, a, b);
      PlaceholdersSuffice(d.prompt, |few|, |many|);
      WrittenTwice(s, key, d.(prompt := EnsurePlaceholders(d.prompt, |few|), terminalContexts := few),
                   d.(prompt := EnsurePlaceholders(d.prompt, |many|), terminalContexts := many));
    }
  }

  lemma AddedIsAccepted(s: Store, key: string, threadId: string, contexts: seq<Context>)
    requires Sound(s)
    ensures AddTerminalContexts(s, key, threadId, contexts) ==
      AddAccepted(s, key, Accept(CONTEXTS, DraftOrEmpty(s, key).terminalContexts, NormalizedAll(threadId, contexts)))
  {
    hide Accept, Sound, AddTerminalContexts, EnsurePlaceholders, NormalizedAll, DraftOrEmpty;
    AddedContexts(s, key, threadId, contexts);
  }

  /** In a sound store, adding terminal contexts in two batches is adding them in one. */
  lemma ContextsInBatches(s: Store, key: string, threadId: string, a: seq<Context>, b: seq<Context>)
    requires Sound(s)
    ensures AddTerminalContexts(AddTerminalContexts(s, key, threadId, a), key, threadId, b)
            == AddTerminalContexts(s, key, threadId, a + b)
  {
    hide Accept, AddAccepted, AddTerminalContexts, DraftOrEmpty, NormalizedAll, Sound;
    var kept := DraftOrEmpty(s, key).terminalContexts;
    var first := Accept(CONTEXTS, kept, NormalizedAll(threadId, a));
    var second := Accept(CONTEXTS, kept + first, NormalizedAll(threadId, b));
    ApplyKeepsSound(s, key, Some(threadId), ContextsAdded(a));
    AddedIsAccepted(s, key, threadId, a);
    AddAcceptedTwice(s, key, first, second);
    AddedIsAccepted(AddAccepted(s, key, first), key, threadId, b);
    AddedIsAccepted(s, key, threadId, a + b);
    NormalizedAppend(threadId, a, b);
    AcceptInBatches(CONTEXTS, kept, NormalizedAll(threadId, a), NormalizedAll(threadId, b));
  }

  /** After contexts have been added, the prompt has a placeholder for each. */
  lemma ContextsHavePlaceholders(s: Store, key: string, threadId: string, contexts: seq<Context>)
    requires Sound(s) && AddTerminalContexts(s, key, threadId, contexts) != s
    ensures var d := DraftOrEmpty(AddTerminalContexts(s, key, threadId, contexts), key);
            |d.terminalContexts| <= CountPlaceholders(d.prompt)
  {
    hide Accept, AddTerminalContexts, EnsurePlaceholders, CountPlaceholders, NormalizedAll, Sound;
    AddedIsAccepted(s, key, threadId, contexts);
    var d := DraftOrEmpty(s, key);
    var next := d.terminalContexts + Accept(CONTEXTS, d.terminalContexts, NormalizedAll(threadId, contexts));
    PlaceholdersSuffice(d.prompt, |next|, |next|);
  }

  // Undoing

  lemma NoneNamed(contexts: seq<Context>, x: Context)
    requires !Clashes(CONTEXTS, x, contexts)
    ensures forall i | 0 <= i < |contexts| :: CONTEXTS.id(contexts[i]) !in {CONTEXTS.id(x)}
  {
    forall i | 0 <= i < |contexts| ensures CONTEXTS.id(contexts[i]) != CONTEXTS.id(x) {
      assert !Same(CONTEXTS, contexts[i], x);
    }
  }

  lemma InsertedTakenOut(contexts: seq<Context>, x: Context, at: nat)
    requires at <= |contexts| && !Clashes(CONTEXTS, x, contexts)
    ensures Except(CONTEXTS.id, contexts[..at] + [x] + contexts[at..], {x.id}) == contexts
  {
    hide Except, Clashes;
    var a, b := contexts[..at], contexts[at..];
    assert CONTEXTS.id(x) == x.id;
    NoneNamed(contexts, x);
    ExceptAppend(CONTEXTS.id, a + [x], b, {x.id});
    ExceptAppend(CONTEXTS.id, a, [x], {x.id});
    ExceptAbsent(CONTEXTS.id, a, {x.id});
    ExceptAbsent(CONTEXTS.id, b, {x.id});
    ExceptOnly(CONTEXTS.id, x);
    assert a + [] + b == contexts;
  }

  /** A context that was inserted anywhere and is taken out again leaves the contexts as they were, in
      their order; the prompt stays the one that came with the insertion. */
  lemma RemoveUndoesInsert(s: Store, key: string, threadId: string, prompt: string, context: Context, index: int)
    requires Inserts(s, key, threadId, context) && context.id != ""
    ensures var t := InsertTerminalContext(s, key, threadId, prompt, context, index);
            RemoveTerminalContext(t, key, context.id) ==
              StoreOrRemove(s, key, DraftOrEmpty(s, key).(prompt := prompt))
  {
    hide Clashes, ShouldRemoveDraft, Except;
    var d := DraftOrEmpty(s, key);
    var x, at := Normalize(threadId, context).value, Clamp(index, |d.terminalContexts|);
    assert x.id == context.id;
    InsertedTakenOut(d.terminalContexts, x, at);
    var t := InsertTerminalContext(s, key, threadId, prompt, context, index);
    assert t.drafts[key].(terminalContexts := d.terminalContexts) == d.(prompt := prompt);
    assert t.drafts[key := d.(prompt := prompt)] == s.drafts[key := d.(prompt := prompt)];
    assert t.drafts - {key} == s.drafts - {key};
  }

  // What is left alone

  /** An edit at one key leaves every other draft and session alone, and mappings that point elsewhere. */
  lemma OthersUntouched(s: Store, key: string, threadId: Option<string>, edit: Edit, other: string)
    requires other != key
    ensures LeavesAlone(s, Apply(s, key, threadId, edit), key, other)
  {
    hide Apply, IsSessionEdit;
    if IsSessionEdit(edit) {
      SessionEditLeavesAlone(s, key, threadId, edit, other);
    } else {
      DraftEditIsLocal(s, key, threadId, edit);
      SameElsewhere(s.drafts, Apply(s, key, threadId, edit).drafts, key, other);
    }
  }

  lemma SameElsewhere(a: map<string, Draft>, b: map<string, Draft>, key: string, other: string)
    requires a - {key} == b - {key} && other != key
    ensures (other in a <==> other in b) && (other in a ==> b[other] == a[other])
  {
    assert (other in a <==> other in a - {key}) && (other in b <==> other in b - {key});
    assert other in a ==> (a - {key})[other] == a[other];
    assert other in b ==> (b - {key})[other] == b[other];
  }

  ghost predicate LeavesAlone(s: Store, t: Store, key: string, other: string) {
    && (other in t.drafts <==> other in s.drafts)
    && (other in s.drafts ==> t.drafts[other] == s.drafts[other])
    && SessionAt(t, other) == SessionAt(s, other)
    && (forall p | p in s.mappings && s.mappings[p] != key :: p in t.mappings && t.mappings[p] == s.mappings[p])
  }

  lemma SessionEditLeavesAlone(s: Store, key: string, threadId: Option<string>, edit: Edit, other: string)
    requires other != key && IsSessionEdit(edit)
    ensures LeavesAlone(s, Apply(s, key, threadId, edit), key, other)
  {
    hide NextEnvMode;
  }

  ghost predicate IsLocal(s: Store, t: Store, key: string) {
    t.sessions == s.sessions && t.mappings == s.mappings && t.drafts - {key} == s.drafts - {key}
  }

  lemma StoreIsLocal(s: Store, key: string, d: Draft)
    ensures IsLocal(s, StoreOrRemove(s, key, d), key)
    ensures IsLocal(s, s.(drafts := s.drafts[key := d]), key)
    ensures IsLocal(s, s, key)
  {
    hide ShouldRemoveDraft;
  }

  lemma ItemEditIsStored(s: Store, key: string, threadId: Option<string>, edit: Edit) returns (next: Draft)
    requires !IsSessionEdit(edit) && !IsPlainEdit(edit)
    ensures var t := Apply(s, key, threadId, edit);
            t == s || t == StoreOrRemove(s, key, next) || t == s.(drafts := s.drafts[key := next])
  {
    hide ShouldRemoveDraft, Accept, NormalizeContexts, Except, EnsurePlaceholders, Normalize, Clashes, Clamp;
    var t := Apply(s, key, threadId, edit);
    var d := DraftOrEmpty(s, key);
    if edit.ImageRemoved? {
      next := d.(images := Except(IMAGES.id, d.images, {edit.id}), nonPersistedImageIds := Except(SELF, d.nonPersistedImageIds, {edit.id}),
                 persistedAttachments := Except(ATTACHMENT_ID, d.persistedAttachments, {edit.id}));
    } else if edit.ContextRemoved? {
      next := d.(terminalContexts := Except(CONTEXTS.id, d.terminalContexts, {edit.id}));
    } else if edit.ContextsSet? && threadId.Some? {
      var normalized := NormalizeContexts(threadId.value, edit.contexts);
      next := d.(prompt := EnsurePlaceholders(d.prompt, |normalized|), terminalContexts := normalized);
    } else {
      next := if key in t.drafts then t.drafts[key] else d;
    }
  }

  /** An edit of a draft changes no session and no mapping, and of the drafts only its own. */
  lemma DraftEditIsLocal(s: Store, key: string, threadId: Option<string>, edit: Edit)
    requires !IsSessionEdit(edit)
    ensures IsLocal(s, Apply(s, key, threadId, edit), key)
  {
    hide *;
    if IsPlainEdit(edit) {
      var d := PlainEdit(s, key, threadId, edit);
      StoreIsLocal(s, key, d);
    } else {
      var d := ItemEditIsStored(s, key, threadId, edit);
      StoreIsLocal(s, key, d);
    }
  }

  /** `getDraftSessionByLogicalProjectKey` */
  function SessionOfProject(s: Store, logicalProjectKey: string): Option<string> {
    var projectKey := Trim(logicalProjectKey);
    if projectKey == "" || projectKey !in s.mappings then None
    else
      var draftId := s.mappings[projectKey];
      if draftId == "" || draftId !in s.sessions || s.sessions[draftId].promotedTo.Some? then None else Some(draftId)
  }

  /** A project is found to have the session it was given. Of the rest, only the session it had before
      can go, with its draft: exactly when no project uses it any more and it is not being promoted. */
  lemma ProjectHasItsSession(s: Store, logicalProjectKey: string, project: ProjectRef, draftId: string, options: Options,
                             now: string, other: string)
    requires Trim(logicalProjectKey) != "" && draftId != "" && other != draftId && Sound(s)
    ensures var t := SetProjectSession(s, logicalProjectKey, project, draftId, options, now);
            var projectKey := Trim(logicalProjectKey);
            && SessionOfProject(t, logicalProjectKey) == Some(draftId)
            && (forall p | p != projectKey :: (p in t.mappings <==> p in s.mappings) && (p in s.mappings ==> t.mappings[p] == s.mappings[p]))
            && (other in t.sessions ==> SessionAt(t, other) == SessionAt(s, other))
            && (other in s.sessions && other !in t.sessions <==>
                && projectKey in s.mappings && s.mappings[projectKey] == other && !Promoting(s, other)
                && (forall p | p != projectKey && p in s.mappings :: s.mappings[p] != other))
            && (other in s.sessions && other !in t.sessions ==> other !in t.drafts)
  {
    hide ItemsSound, ShouldRemoveDraft;
    assert NextSession(s, Trim(logicalProjectKey), project, draftId, options, now).promotedTo == None;
  }
}
