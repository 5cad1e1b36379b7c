/** Which drafts and sessions go away, and which stay: removing, promoting and finalizing. */
module ComposerDraftPromotion {
  import opened Text
  import opened ComposerDraftStore
  import opened ComposerDraftLaws
  import opened ComposerDraftUndo
  import opened Scoped

  /** `t` is `s` without `key`: in no map any more, nor pointed at; everything else is as it was. */
  ghost predicate IsWithout(t: Store, s: Store, key: string) {
    && key !in t.drafts && key !in t.sessions && !InUse(t.mappings, key)
    && (forall other | other != key :: LeavesAlone(s, t, key, other))
    && (forall p | p in t.mappings :: p in s.mappings && s.mappings[p] == t.mappings[p])
  }

  /** Removing the references to a key takes it out of all three maps, and nothing else. */
  lemma RemovedIsGone(s: Store, key: string)
    ensures IsWithout(RemoveReferences(s, key), s, key)
    ensures forall t | IsWithout(t, s, key) :: t == RemoveReferences(s, key)
  {
    forall t | IsWithout(t, s, key) ensures t == RemoveReferences(s, key) { WithoutIsUnique(t, s, key); }
  }

  lemma WithoutIsUnique(t: Store, s: Store, key: string)
    requires IsWithout(t, s, key)
    ensures t == RemoveReferences(s, key)
  {
    var r := RemoveReferences(s, key);
    forall k ensures k in t.drafts <==> k in r.drafts { assert k != key ==> LeavesAlone(s, t, key, k); }
    forall k | k in t.drafts ensures t.drafts[k] == r.drafts[k] { assert LeavesAlone(s, t, key, k); }
    assert t.drafts == r.drafts;
    forall k ensures k in t.sessions <==> k in r.sessions { assert k != key ==> LeavesAlone(s, t, key, k); }
    forall k | k in t.sessions ensures t.sessions[k] == r.sessions[k] { assert LeavesAlone(s, t, key, k); }
    assert t.sessions == r.sessions;
    assert LeavesAlone(s, t, key, key + "'");
    forall p ensures p in t.mappings <==> p in r.mappings {
      if p in t.mappings { assert t.mappings[p] != key; }
    }
    assert t.mappings == r.mappings;
  }

  /** Promoting a session only notes the thread it was promoted to, by default its own. No project finds
      it any more, and where there is no session nothing happens. */
  lemma PromotedIsNotFound(s: Store, key: string, threadId: Option<string>, promotedTo: Option<ThreadRef>,
                           logicalProjectKey: string)
    ensures var t := Apply(s, key, threadId, Promoted(promotedTo));
            && (key !in s.sessions ==> t == s)
            && (key in s.sessions ==>
                  && SessionAt(t, key) == Some(s.sessions[key].(promotedTo := SessionAt(t, key).value.promotedTo))
                  && SessionAt(t, key).value.promotedTo ==
                       (if promotedTo.Some? then promotedTo
                        else Some(ThreadRef(s.sessions[key].environmentId, s.sessions[key].threadId)))
                  && t.drafts == s.drafts && t.mappings == s.mappings && t.sessions - {key} == s.sessions - {key}
                  && SessionOfProject(t, logicalProjectKey) != Some(key))
  {}

  /** Finalizing removes a session that is being promoted, and nothing else; a session that a project
      finds stays as it is. */
  lemma FinalizedExactlyWhenPromoted(s: Store, key: string, threadId: Option<string>, logicalProjectKey: string)
    ensures var t := Apply(s, key, threadId, PromotionFinalized);
            && (key in s.sessions && s.sessions[key].promotedTo.Some? ==> IsWithout(t, s, key))
            && (key in s.sessions && s.sessions[key].promotedTo.None? ==> t == s)
            && (SessionOfProject(s, logicalProjectKey) == Some(key) ==> t == s)
  {
    hide IsWithout, RemoveReferences;
    RemovedIsGone(s, key);
  }

  /** A session that is promoted and then finalized is gone, with its draft and every mapping to it; all
      else is as before the promotion. */
  lemma PromotedThenFinalized(s: Store, key: string, threadId: Option<string>, promotedTo: Option<ThreadRef>,
                              later: Option<string>)
    requires key in s.sessions
    ensures IsWithout(Apply(Apply(s, key, threadId, Promoted(promotedTo)), key, later, PromotionFinalized), s, key)
  {
    hide IsWithout;
    var mid := Apply(s, key, threadId, Promoted(promotedTo));
    assert RemoveReferences(mid, key) == RemoveReferences(s, key) by {
      assert mid.sessions - {key} == s.sessions - {key};
    }
    RemovedIsGone(s, key);
  }

  /** Clearing a session by its project removes it exactly when it is one of that project; clearing a
      draft removes it whatever it is. */
  lemma ClearedIsGone(s: Store, key: string, threadId: Option<string>, project: ProjectRef)
    ensures var t := Apply(s, key, threadId, ProjectSessionCleared(project));
            if key in s.sessions && ProjectOf(s.sessions[key]) == project then IsWithout(t, s, key) else t == s
    ensures IsWithout(Apply(s, key, threadId, DraftCleared), s, key)
  {
    hide IsWithout, RemoveReferences;
    RemovedIsGone(s, key);
  }

  // Finding the key of a composer

  /** A draft id is its own key, once trimmed, and a blank one has none. For a thread with a stored draft
      that draft is taken; else a draft session of that thread, where there is one; else the thread itself. */
  lemma KeyIsFound(s: Store, target: Target, key: string)
    requires Resolves(s, target, key)
    ensures target.DraftTarget? ==> key == Trim(target.draftId) && key != ""
    ensures target.ThreadTarget? && ThreadKey(target.ref) in s.drafts ==> key == ThreadKey(target.ref)
    ensures target.ThreadTarget? && ThreadKey(target.ref) !in s.drafts && key != ThreadKey(target.ref) ==>
      key in s.sessions && s.sessions[key].environmentId == target.ref.environmentId && s.sessions[key].threadId == target.ref.threadId
    ensures target.ThreadTarget? && ThreadKey(target.ref) !in s.drafts ==>
      forall k | k in s.sessions && s.sessions[k].environmentId == target.ref.environmentId
                 && s.sessions[k].threadId == target.ref.threadId ::
        key in s.sessions && s.sessions[key].environmentId == target.ref.environmentId
        && s.sessions[key].threadId == target.ref.threadId
  {
    hide Trim, ThreadKey;
    if target.ThreadTarget? && ThreadKey(target.ref) !in s.drafts {
      forall k | k in s.sessions && s.sessions[k].environmentId == target.ref.environmentId
                 && s.sessions[k].threadId == target.ref.threadId ensures Belongs(s.sessions[k], target.ref) {}
    }
  }

  /** Every target but a blank draft id has a key; the only draft session of a thread without a stored
      draft is the one that is found. */
  lemma KeyExists(s: Store, target: Target, only: string)
    ensures (exists key :: Resolves(s, target, key)) <==> (target.DraftTarget? ==> Trim(target.draftId) != "")
    ensures target.ThreadTarget? && ThreadKey(target.ref) !in s.drafts && only in s.sessions && Belongs(s.sessions[only], target.ref)
            && (forall k | k in s.sessions && k != only :: !Belongs(s.sessions[k], target.ref)) ==>
              forall key :: Resolves(s, target, key) <==> key == only
  {
    hide Trim, ThreadKey, Belongs;
    match target {
      case DraftTarget(draftId) => assert Trim(draftId) != "" ==> Resolves(s, target, Trim(draftId));
      case ThreadTarget(ref) =>
        if k :| ThreadKey(ref) !in s.drafts && k in s.sessions && Belongs(s.sessions[k], ref) {
          assert Resolves(s, target, k);
        } else {
          assert Resolves(s, target, ThreadKey(ref));
        }
    }
  }

  /** Setting the context of a session replaces it by the next one and touches nothing else; where there
      is no session nothing happens. */
  lemma ContextIsSet(s: Store, key: string, threadId: Option<string>, project: Option<ProjectRef>, options: Options)
    ensures var t := Apply(s, key, threadId, SessionContextSet(project, options));
      && (key !in s.sessions ==> t == s)
      && (key in s.sessions ==>
            SessionAt(t, key) == Some(NextContext(s.sessions[key], project, options))
            && t.sessions - {key} == s.sessions - {key} && t.drafts == s.drafts && t.mappings == s.mappings)
  {
    hide NextContext;
  }

  /** The thread a composer writes in: that of the draft session, or the one it was opened for. */
  lemma ThreadIsFound(s: Store, target: Target, id: string)
    ensures ThreadIdOf(s, target) == Some(id) <==>
      && id != ""
      && (target.ThreadTarget? ==> target.ref.threadId == id)
      && (target.DraftTarget? ==>
            Trim(target.draftId) != "" && SessionAt(s, Trim(target.draftId)).Some?
            && SessionAt(s, Trim(target.draftId)).value.threadId == id)
  {
    hide Trim;
  }
}
