/** What setting the context of a draft session, and giving a session to a project, mean for a caller. */
module ComposerDraftSessions {
  import opened Text
  import opened ComposerDraftStore
  import opened Scoped

  // Setting the context

  /** The session names its project. Without that a call that names none either is ignored. */
  predicate Identified(project: ProjectRef) {
    project.projectId != "" && project.environmentId != ""
  }

  predicate HasWorktree(worktreePath: Option<string>) {
    worktreePath.Some? && worktreePath.value != ""
  }

  predicate Named(text: Option<string>) {
    text.Some? && text.value != ""
  }

  /** Only the fields that the options name change. */
  predicate OnlyNamed(before: Session, o: Options, after: Session) {
    after == before.(branch := Or(o.branch, before.branch),
                     createdAt := if Named(o.createdAt) then o.createdAt.value else before.createdAt,
                     runtimeMode := Or(o.runtimeMode, before.runtimeMode),
                     interactionMode := Or(o.interactionMode, before.interactionMode))
  }

  /** A call that names neither project, worktree nor mode changes just the fields it names, exactly
      when the mode fits the worktree; otherwise it also moves a session with a worktree into worktree
      mode, whatever it was called for. */
  lemma OtherOptionsLeaveTheMode(session: Session, o: Options)
    requires Identified(ProjectOf(session)) && o.worktreePath.None? && o.envMode.None?
    ensures OnlyNamed(session, o, NextContext(session, None, o)) <==>
            !HasWorktree(session.worktreePath) || session.envMode == "worktree"
    ensures var after := NextContext(session, None, o); OnlyNamed(session, o, after.(envMode := session.envMode))
  {}

  /** A local session with a worktree that is told its runtime mode turns into a worktree session. */
  lemma ModeIsMoved()
    ensures var session := Session("t", "e", "p", "k", "now", "full-access", "default", None, Some("/w"), "local", None);
            var o := Options(None, None, None, None, None, Some("approval-required"), None);
            NextContext(session, None, o) == session.(runtimeMode := "approval-required", envMode := "worktree")
  {}

  /** Saying the same again changes nothing, whatever was said. */
  lemma SaidTwice(session: Session, project: Option<ProjectRef>, o: Options)
    ensures NextContext(NextContext(session, project, o), project, o) == NextContext(session, project, o)
  {}

  /** Later options over earlier ones. */
  function Merged(o: Options, later: Options): Options {
    Options(if later.threadId.Some? then later.threadId else o.threadId,
            if later.branch.Some? then later.branch else o.branch,
            if later.worktreePath.Some? then later.worktreePath else o.worktreePath,
            if Named(later.createdAt) then later.createdAt else o.createdAt,
            if later.envMode.Some? then later.envMode else o.envMode,
            if later.runtimeMode.Some? then later.runtimeMode else o.runtimeMode,
            if later.interactionMode.Some? then later.interactionMode else o.interactionMode)
  }

  /** The worktree after a call with a valid project. */
  function WorktreeAfter(session: Session, project: Option<ProjectRef>, o: Options): Option<string> {
    Or(o.worktreePath, if Or(project, ProjectOf(session)) != ProjectOf(session) then None else session.worktreePath)
  }

  /** When the mode of two calls in turn is the mode of the merged call: the later call names it; or the
      earlier one does, and not against a worktree that is there in the end; or neither does, and no
      worktree that is there in between is given up, unless the session was in worktree mode all along. */
  predicate ModeMerges(session: Session, project: Option<ProjectRef>, o: Options, later: Options) {
    var between := WorktreeAfter(session, project, o);
    var end := Or(later.worktreePath, between);
    if later.envMode.Some? then true
    else if o.envMode.Some? then HasWorktree(end) ==> o.envMode.value == "worktree"
    else HasWorktree(between) && !HasWorktree(end) ==>
      Or(project, ProjectOf(session)) == ProjectOf(session) && session.envMode == "worktree"
  }

  /** Two calls, the later of which names no project, are the one call with the merged options, exactly
      when the modes merge; all else always merges. */
  lemma SaidInTurn(session: Session, project: Option<ProjectRef>, o: Options, later: Options)
    requires Identified(Or(project, ProjectOf(session)))
    ensures var inTurn, atOnce :=
              NextContext(NextContext(session, project, o), None, later), NextContext(session, project, Merged(o, later));
            (inTurn == atOnce <==> ModeMerges(session, project, o, later)) && inTurn == atOnce.(envMode := inTurn.envMode)
  {
    var y := NextContext(session, project, o);
    assert ProjectOf(y) == Or(project, ProjectOf(session));
    assert y.worktreePath == WorktreeAfter(session, project, o);
  }

  /** A session that moves to another project forgets its branch, its worktree and its mode: two sessions
      that differ only in these are one after the move, whatever else is said; and they are one after
      every call with a valid project only if it moves them or names what they differ in. */
  lemma MovingForgets(session: Session, other: Session, project: ProjectRef, o: Options)
    requires Identified(project)
    requires other == session.(branch := other.branch, worktreePath := other.worktreePath, envMode := other.envMode)
    ensures NextContext(session, Some(project), o) == NextContext(other, Some(project), o) <==>
      || project != ProjectOf(session)
      || (&& (session.branch == other.branch || o.branch.Some?)
          && (session.worktreePath == other.worktreePath || o.worktreePath.Some?)
          && (|| session.envMode == other.envMode || o.envMode.Some?
              || HasWorktree(Or(o.worktreePath, session.worktreePath))))
  {}

  /** A session moved to another project goes on like a local one there that has no branch and no worktree
      yet, whatever else is said. */
  lemma MovedIsLocal(session: Session, project: ProjectRef, o: Options)
    requires Identified(project) && project != ProjectOf(session)
    ensures NextContext(session, Some(project), o) ==
            NextContext(session.(environmentId := project.environmentId, projectId := project.projectId, branch := None,
                                 worktreePath := None, envMode := "local"), None, o)
  {}

  // Giving a session to a project

  /** Giving a project the same session with the same options again changes nothing, at whatever time. */
  lemma GivenTwice(s: Store, logicalProjectKey: string, project: ProjectRef, draftId: string, o: Options, now: string,
                   later: string)
    ensures var t := SetProjectSession(s, logicalProjectKey, project, draftId, o, now);
            SetProjectSession(t, logicalProjectKey, project, draftId, o, later) == t
  {
    hide CreateSession, Promoting, InUse;
    var projectKey := Trim(logicalProjectKey);
    if projectKey != "" && draftId != "" {
      var t := SetProjectSession(s, logicalProjectKey, project, draftId, o, now);
      CreatedTwice(s, t, projectKey, project, draftId, o, now, later);
      assert t.sessions[draftId := t.sessions[draftId]] == t.sessions;
      assert t.mappings[projectKey := draftId] == t.mappings;
    }
  }

  lemma CreatedTwice(s: Store, t: Store, projectKey: string, project: ProjectRef, draftId: string, o: Options, now: string,
                     later: string)
    requires draftId in t.sessions && t.sessions[draftId] == NextSession(s, projectKey, project, draftId, o, now)
    ensures NextSession(t, projectKey, project, draftId, o, later) == t.sessions[draftId]
  {}

  /** Giving a project the session it has is setting the context of that session and forgetting its
      promotion, exactly when no other thread is named, and no empty time that only the former takes. */
  lemma GivingIsSetting(s: Store, project: ProjectRef, draftId: string, o: Options, now: string)
    requires draftId in s.sessions && Identified(project)
    ensures var session := s.sessions[draftId];
            NextSession(s, session.logicalProjectKey, project, draftId, o, now)
              == NextContext(session, Some(project), o).(promotedTo := None)
            <==> (o.threadId.None? || o.threadId.value == session.threadId)
                 && (o.createdAt != Some("") || session.createdAt == "")
  {}

  /** A new session as it is before anything is said of it: local, without branch or worktree, and its
      thread named after the draft. */
  function FreshSession(projectKey: string, project: ProjectRef, draftId: string, now: string): Session {
    Session(draftId, project.environmentId, project.projectId, projectKey, now, "full-access",
            "default", None, None, "local", None)
  }

  /** Giving a project a new session is setting the context of a fresh one, under the same condition. */
  lemma GivingNewIsSetting(s: Store, projectKey: string, project: ProjectRef, draftId: string, o: Options, now: string)
    requires draftId !in s.sessions && Identified(project)
    ensures NextSession(s, projectKey, project, draftId, o, now)
              == NextContext(FreshSession(projectKey, project, draftId, now), Some(project), o)
            <==> (o.threadId.None? || o.threadId.value == draftId) && (o.createdAt != Some("") || now == "")
  {}
}
