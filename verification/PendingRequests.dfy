/** Pending approvals and pending user inputs (`apps/web/src/session-logic.ts`). */
module PendingRequests {
  import opened Text
  import opened Sorting
  import opened SessionLogic

  datatype Approval = Approval(requestId: string, requestKind: string, createdAt: string, detail: Option<string>)

  datatype Choice = Choice(caption: string, description: string)

  datatype Question = Question(id: string, header: string, question: string, options: seq<Choice>, multiSelect: bool)

  datatype UserInput = UserInput(requestId: string, createdAt: string, questions: seq<Question>)

  // Reading one activity

  function RequestId(a: Activity): Option<string> {
    if a.payload.Some? && a.payload.value.requestId.Some? && a.payload.value.requestId.value != "" then a.payload.value.requestId
    else None
  }

  /** `requestKindFromRequestType` */
  function RequestKindFromType(requestType: Option<string>): Option<string> {
    match requestType
    case None => None
    case Some(t) =>
      if t == "command_execution_approval" || t == "exec_command_approval" || t == "dynamic_tool_call" then Some("command")
      else if t == "file_read_approval" then Some("file-read")
      else if t == "file_change_approval" || t == "apply_patch_approval" then Some("file-change")
      else None
  }

  function RequestKind(a: Activity): Option<string> {
    match a.payload
    case None => None
    case Some(payload) =>
      if payload.requestKind in {Some("command"), Some("file-read"), Some("file-change")} then payload.requestKind
      else RequestKindFromType(payload.requestType)
  }

  /** A detail that is not empty. */
  function Detail(a: Activity): Option<string> {
    if a.payload.Some? && a.payload.value.detail.Some? && a.payload.value.detail.value != "" then a.payload.value.detail
    else None
  }

  predicate Contains(s: string, part: string) {
    exists i :: 0 <= i <= |s| && part <= s[i..]
  }

  /** `isStalePendingRequestFailureDetail`; `lower` is `toLowerCase`. */
  predicate IsStaleFailure(lower: string -> string, detail: Option<string>) {
    && detail.Some?
    && var text := lower(detail.value);
       || Contains(text, "stale pending approval request")
       || Contains(text, "stale pending user-input request")
       || Contains(text, "unknown pending approval request")
       || Contains(text, "unknown pending permission request")
       || Contains(text, "unknown pending user-input request")
  }

  function ParseChoices(options: seq<RawOption>): seq<Choice> {
    if options == [] then []
    else
      var rest := ParseChoices(options[1..]);
      if options[0].caption.Some? && options[0].description.Some? then
        [Choice(options[0].caption.value, options[0].description.value)] + rest
      else rest
  }

  function ParseQuestion(raw: RawQuestion): Option<Question> {
    if raw.id.None? || raw.header.None? || raw.question.None? || raw.options.None? then None
    else if ParseChoices(raw.options.value) == [] then None
    else Some(Question(raw.id.value, raw.header.value, raw.question.value, ParseChoices(raw.options.value), raw.multiSelect))
  }

  function ParseQuestionList(raw: seq<RawQuestion>): seq<Question> {
    if raw == [] then []
    else
      var rest := ParseQuestionList(raw[1..]);
      match ParseQuestion(raw[0])
      case None => rest
      case Some(q) => [q] + rest
  }

  /** `parseUserInputQuestions` */
  function ParseUserInputQuestions(a: Activity): Option<seq<Question>> {
    if a.payload.None? || a.payload.value.questions.None? then None
    else
      var parsed := ParseQuestionList(a.payload.value.questions.value);
      if parsed == [] then None else Some(parsed)
  }

  // What an activity says about a request

  function ApprovalSignal(lower: string -> string): Activity -> Signal<Approval> {
    a =>
      match RequestId(a)
      case None => Silent
      case Some(id) =>
        if a.kind == "approval.requested" && RequestKind(a).Some? then
          Opens(id, Approval(id, RequestKind(a).value, a.createdAt, Detail(a)))
        else if a.kind == "approval.resolved" then Closes(id)
        else if a.kind == "provider.approval.respond.failed" && IsStaleFailure(lower, Detail(a)) then Closes(id)
        else Silent
  }

  function UserInputSignal(lower: string -> string): Activity -> Signal<UserInput> {
    a =>
      match RequestId(a)
      case None => Silent
      case Some(id) =>
        if a.kind == "user-input.requested" && ParseUserInputQuestions(a).Some? then
          Opens(id, UserInput(id, a.createdAt, ParseUserInputQuestions(a).value))
        else if a.kind == "user-input.resolved" then Closes(id)
        else if a.kind == "provider.user-input.respond.failed" && IsStaleFailure(lower, Detail(a)) then Closes(id)
        else Silent
  }

  function OlderApproval(collate: (string, string) -> int): (Approval, Approval) -> int {
    (a: Approval, b: Approval) => collate(a.createdAt, b.createdAt)
  }

  function OlderUserInput(collate: (string, string) -> int): (UserInput, UserInput) -> int {
    (a: UserInput, b: UserInput) => collate(a.createdAt, b.createdAt)
  }

  function PendingApprovals(collate: (string, string) -> int, lower: string -> string, activities: seq<Activity>): seq<Approval> {
    Pending(collate, ApprovalSignal(lower), OlderApproval(collate), activities)
  }

  function PendingUserInputs(collate: (string, string) -> int, lower: string -> string, activities: seq<Activity>): seq<UserInput> {
    Pending(collate, UserInputSignal(lower), OlderUserInput(collate), activities)
  }

  lemma OpenNext<T>(classify: Activity -> Signal<T>, ordered: seq<Activity>, k: nat)
    requires k < |ordered|
    ensures Open(classify, ordered[..k + 1]) == Step(Open(classify, ordered[..k]), classify(ordered[k]))
  {
    assert ordered[..k + 1][..k] == ordered[..k];
  }

  /** `derivePendingApprovals` */
  method DerivePendingApprovals(collate: (string, string) -> int, lower: string -> string, activities: seq<Activity>)
    returns (pending: seq<Approval>)
    ensures pending == PendingApprovals(collate, lower, activities)
  {
    hide ByOrder, DeleteEntry, IsStaleFailure, RequestKind, SetEntry, Sort;
    var openByRequestId: seq<Entry<Approval>> := [];
    var ordered := Sort(ByOrder(collate), activities);
    var k := 0;
    assert Open(ApprovalSignal(lower), ordered[..0]) == [];
    while k < |ordered|
      invariant 0 <= k <= |ordered|
      invariant openByRequestId == Open(ApprovalSignal(lower), ordered[..k])
    {
      var activity := ordered[k];
      OpenNext(ApprovalSignal(lower), ordered, k);
      var requestId, requestKind, detail := RequestId(activity), RequestKind(activity), Detail(activity);
      k := k + 1;
      if activity.kind == "approval.requested" && requestId.Some? && requestKind.Some? {
        openByRequestId := SetEntry(openByRequestId, Entry(requestId.value,
          Approval(requestId.value, requestKind.value, activity.createdAt, detail)));
        continue;
      }
      if activity.kind == "approval.resolved" && requestId.Some? {
        openByRequestId := DeleteEntry(openByRequestId, requestId.value);
        continue;
      }
      if activity.kind == "provider.approval.respond.failed" && requestId.Some? && IsStaleFailure(lower, detail) {
        openByRequestId := DeleteEntry(openByRequestId, requestId.value);
        continue;
      }
    }
    assert ordered[..k] == ordered;
    pending := Sort(OlderApproval(collate), Values(openByRequestId));
  }

  /** `derivePendingUserInputs` */
  method DerivePendingUserInputs(collate: (string, string) -> int, lower: string -> string, activities: seq<Activity>)
    returns (pending: seq<UserInput>)
    ensures pending == PendingUserInputs(collate, lower, activities)
  {
    hide ByOrder, DeleteEntry, IsStaleFailure, ParseUserInputQuestions, SetEntry, Sort;
    var openByRequestId: seq<Entry<UserInput>> := [];
    var ordered := Sort(ByOrder(collate), activities);
    var k := 0;
    assert Open(UserInputSignal(lower), ordered[..0]) == [];
    while k < |ordered|
      invariant 0 <= k <= |ordered|
      invariant openByRequestId == Open(UserInputSignal(lower), ordered[..k])
    {
      var activity := ordered[k];
      OpenNext(UserInputSignal(lower), ordered, k);
      var requestId, detail := RequestId(activity), Detail(activity);
      k := k + 1;
      if activity.kind == "user-input.requested" && requestId.Some? {
        var questions := ParseUserInputQuestions(activity);
        if questions.None? {
          continue;
        }
        openByRequestId := SetEntry(openByRequestId, Entry(requestId.value,
          UserInput(requestId.value, activity.createdAt, questions.value)));
        continue;
      }
      if activity.kind == "user-input.resolved" && requestId.Some? {
        openByRequestId := DeleteEntry(openByRequestId, requestId.value);
        continue;
      }
      if activity.kind == "provider.user-input.respond.failed" && requestId.Some? && IsStaleFailure(lower, detail) {
        openByRequestId := DeleteEntry(openByRequestId, requestId.value);
      }
    }
    assert ordered[..k] == ordered;
    pending := Sort(OlderUserInput(collate), Values(openByRequestId));
  }

  // What is pending

  lemma ValuesMember<T>(m: seq<Entry<T>>, item: T)
    ensures item in Values(m) <==> exists id :: Entry(id, item) in m
  {
    if k :| 0 <= k < |m| && m[k].item == item {
      assert Entry(m[k].id, item) == m[k];
    }
    if id :| Entry(id, item) in m {
      var k :| 0 <= k < |m| && m[k] == Entry(id, item);
      assert Values(m)[k] == item;
    }
  }

  lemma PendingMember<T>(collate: (string, string) -> int, classify: Activity -> Signal<T>, older: (T, T) -> int,
                         activities: seq<Activity>, item: T)
    ensures item in Pending(collate, classify, older, activities) <==>
            exists id :: OpenedLast(classify, Sort(ByOrder(collate), activities), Entry(id, item))
  {
    hide Sort, Open, Values, OpenedLast;
    var ordered := Sort(ByOrder(collate), activities);
    SortPermutes(older, Values(Open(classify, ordered)));
    ValuesMember(Open(classify, ordered), item);
    forall id ensures Entry(id, item) in Open(classify, ordered) <==> OpenedLast(classify, ordered, Entry(id, item)) {
      OpenIsOpenedLast(classify, ordered, Entry(id, item));
    }
  }

  /** An approval is pending exactly when the last activity to open or close its request opens it,
      and it carries the data of that activity. */
  lemma ApprovalIsPending(collate: (string, string) -> int, lower: string -> string, activities: seq<Activity>, p: Approval)
    ensures p in PendingApprovals(collate, lower, activities) <==>
            OpenedLast(ApprovalSignal(lower), Sort(ByOrder(collate), activities), Entry(p.requestId, p))
  {
    hide Sort, RequestKind, IsStaleFailure, RequestId;
    var ordered := Sort(ByOrder(collate), activities);
    PendingMember(collate, ApprovalSignal(lower), OlderApproval(collate), activities, p);
    if id :| OpenedLast(ApprovalSignal(lower), ordered, Entry(id, p)) {
      var k :| 0 <= k < |ordered| && OpenedAt(ApprovalSignal(lower), ordered, Entry(id, p), k);
      assert ApprovalSignal(lower)(ordered[k]) == Opens(id, p);
    }
  }

  /** The same for a user input. */
  lemma UserInputIsPending(collate: (string, string) -> int, lower: string -> string, activities: seq<Activity>, p: UserInput)
    ensures p in PendingUserInputs(collate, lower, activities) <==>
            OpenedLast(UserInputSignal(lower), Sort(ByOrder(collate), activities), Entry(p.requestId, p))
  {
    hide Sort, ParseUserInputQuestions, IsStaleFailure, RequestId;
    var ordered := Sort(ByOrder(collate), activities);
    PendingMember(collate, UserInputSignal(lower), OlderUserInput(collate), activities, p);
    if id :| OpenedLast(UserInputSignal(lower), ordered, Entry(id, p)) {
      var k :| 0 <= k < |ordered| && OpenedAt(UserInputSignal(lower), ordered, Entry(id, p), k);
      assert UserInputSignal(lower)(ordered[k]) == Opens(id, p);
    }
  }

  /** Pending requests come oldest first, whatever order the activities came in. */
  lemma PendingIsDetermined(collate: (string, string) -> int, lower: string -> string,
                            activities: seq<Activity>, others: seq<Activity>)
    requires TotalPreorder(collate) && multiset(activities) == multiset(others)
    requires forall a, b | a in activities && b in activities && a != b :: collate(a.id, b.id) != 0
    ensures PendingApprovals(collate, lower, activities) == PendingApprovals(collate, lower, others)
    ensures PendingUserInputs(collate, lower, activities) == PendingUserInputs(collate, lower, others)
    ensures SortedBy(OlderApproval(collate), PendingApprovals(collate, lower, activities))
    ensures SortedBy(OlderUserInput(collate), PendingUserInputs(collate, lower, activities))
  {
    hide Sort, Open, SortedBy, Values;
    PendingIgnoresOrder(collate, ApprovalSignal(lower), OlderApproval(collate), activities, others);
    PendingIgnoresOrder(collate, UserInputSignal(lower), OlderUserInput(collate), activities, others);
    var ordered := Sort(ByOrder(collate), activities);
    OlderIsOrder(collate);
    SortSorts(OlderApproval(collate), Values(Open(ApprovalSignal(lower), ordered)));
    SortSorts(OlderUserInput(collate), Values(Open(UserInputSignal(lower), ordered)));
  }

  lemma OlderIsOrder(collate: (string, string) -> int)
    requires TotalPreorder(collate)
    ensures TotalPreorder(OlderApproval(collate)) && TotalPreorder(OlderUserInput(collate))
  {
    var a, u := OlderApproval(collate), OlderUserInput(collate);
    assert forall x, y :: a(x, y) == collate(x.createdAt, y.createdAt);
    assert forall x, y :: u(x, y) == collate(x.createdAt, y.createdAt);
  }
}
