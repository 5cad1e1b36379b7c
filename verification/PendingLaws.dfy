/** When a request is pending, said of the raw fields of its activities
    (`apps/web/src/session-logic.ts`). */
module PendingLaws {
  import opened Text
  import opened Sorting
  import opened SessionLogic
  import opened PendingRequests

  // Which activity came first

  predicate Starts(kind: string) {
    EndsWith(kind, ".started")
  }

  predicate Ends(kind: string) {
    EndsWith(kind, ".completed") || EndsWith(kind, ".resolved")
  }

  /** At one time: starting comes first, completing and resolving last. */
  predicate EarlierPhase(a: string, b: string) {
    (Starts(a) && !Starts(b)) || (!Ends(a) && Ends(b))
  }

  /** `a` came before `b`: it has the smaller sequence, or none where `b` has one. Where both have the
      same sequence or none, the earlier time, then the earlier phase, then the smaller id. */
  predicate Before(collate: (string, string) -> int, a: Activity, b: Activity) {
    if a.sequence.Some? && b.sequence.Some? && a.sequence != b.sequence then a.sequence.value < b.sequence.value
    else if a.sequence != b.sequence then b.sequence.Some?
    else
      || collate(a.createdAt, b.createdAt) < 0
      || (collate(a.createdAt, b.createdAt) == 0 &&
          (EarlierPhase(a.kind, b.kind) || (!EarlierPhase(b.kind, a.kind) && collate(a.id, b.id) < 0)))
  }

  lemma SuffixesDiffer(kind: string)
    ensures Starts(kind) ==> !EndsWith(kind, ".progress") && !EndsWith(kind, ".updated") && !Ends(kind)
    ensures EndsWith(kind, ".progress") || EndsWith(kind, ".updated") ==> !Ends(kind)
    ensures kind == "tool.started" ==> Starts(kind)
  {
    if |kind| >= 4 {
      var k := |kind| - 4;
      assert Starts(kind) ==> kind[k] == ".started"[4] && kind[k + 1] == ".started"[5];
      assert EndsWith(kind, ".progress") ==> kind[k + 3] == ".progress"[8];
      assert EndsWith(kind, ".updated") ==> kind[k] == ".updated"[4] && kind[k + 1] == ".updated"[5];
      assert EndsWith(kind, ".completed") ==> kind[k] == ".completed"[6] && kind[k + 3] == ".completed"[9];
      assert EndsWith(kind, ".resolved") ==> kind[k] == ".resolved"[5] && kind[k + 1] == ".resolved"[6] && kind[k + 3] == ".resolved"[8];
      assert Starts(kind) ==> kind[k + 3] == ".started"[7];
      assert EndsWith(kind, ".updated") ==> kind[k + 3] == ".updated"[7];
    }
  }

  /** The comparator puts first what came before. */
  lemma ComparesByBefore(collate: (string, string) -> int, a: Activity, b: Activity)
    requires TotalPreorder(collate)
    ensures CompareActivities(collate, a, b) < 0 <==> Before(collate, a, b)
  {
    hide EndsWith;
    SuffixesDiffer(a.kind);
    SuffixesDiffer(b.kind);
    assert collate(a.createdAt, b.createdAt) < 0 <==> collate(b.createdAt, a.createdAt) > 0;
  }

  // The last word on a request

  lemma SortedIndexes(collate: (string, string) -> int, ordered: seq<Activity>, i: nat, j: nat)
    requires TotalPreorder(collate) && SortedBy(ByOrder(collate), ordered) && i <= j < |ordered|
    ensures !Before(collate, ordered[j], ordered[i])
  {
    hide CompareActivities;
    ComparesByBefore(collate, ordered[j], ordered[i]);
    ComparatorIsOrder(collate);
    var cmp := ByOrder(collate);
    if i < j {
      assert cmp(ordered[i], ordered[j]) <= 0;
      assert cmp(ordered[j], ordered[i]) < 0 <==> cmp(ordered[i], ordered[j]) > 0;
    } else {
      assert cmp(ordered[i], ordered[i]) < 0 <==> cmp(ordered[i], ordered[i]) > 0;
    }
  }

  lemma OrderedActivities(collate: (string, string) -> int, activities: seq<Activity>)
    requires TotalPreorder(collate)
    ensures SortedBy(ByOrder(collate), Sort(ByOrder(collate), activities))
    ensures forall a :: a in Sort(ByOrder(collate), activities) <==> a in activities
  {
    hide ByOrder, TotalPreorder, SortedBy, Sort;
    ComparatorIsOrder(collate);
    SortSorts(ByOrder(collate), activities);
    SortPermutes(ByOrder(collate), activities);
  }

  /** Index of the last occurrence. */
  lemma {:induction false} LastIndex(ordered: seq<Activity>, a: Activity) returns (k: nat)
    requires a in ordered
    ensures k < |ordered| && ordered[k] == a && forall j | k < j < |ordered| :: ordered[j] != a
    decreases |ordered|
  {
    k := |ordered| - 1;
    if ordered[k] != a { k := LastIndex(ordered[..k], a); }
  }

  /** An opening that everything else about its request came before leaves the request pending. */
  lemma LastOpeningStays<T>(collate: (string, string) -> int, classify: Activity -> Signal<T>, older: (T, T) -> int,
                            activities: seq<Activity>, a: Activity, id: string, item: T)
    requires TotalPreorder(collate) && a in activities && classify(a) == Opens(id, item)
    requires forall b | b in activities && b != a && Concerns(classify(b), id) :: Before(collate, b, a)
    ensures item in Pending(collate, classify, older, activities)
  {
    hide Sort, Pending, TotalPreorder, SortedBy, ByOrder, Before, Concerns;
    var ordered := Sort(ByOrder(collate), activities);
    OrderedActivities(collate, activities);
    PendingMember(collate, classify, older, activities, item);
    var k := LastIndex(ordered, a);
    forall j | k < j < |ordered| ensures !Concerns(classify(ordered[j]), id) {
      assert ordered[j] in ordered;
      SortedIndexes(collate, ordered, k, j);
    }
    assert OpenedAt(classify, ordered, Entry(id, item), k);
    assert OpenedLast(classify, ordered, Entry(id, item));
  }

  /** Whatever is pending was opened, and nothing about its request came after that opening. */
  lemma PendingWasOpened<T>(collate: (string, string) -> int, classify: Activity -> Signal<T>, older: (T, T) -> int,
                            activities: seq<Activity>, item: T) returns (a: Activity, id: string)
    requires TotalPreorder(collate) && item in Pending(collate, classify, older, activities)
    ensures a in activities && classify(a) == Opens(id, item)
    ensures forall b | b in activities && Concerns(classify(b), id) :: !Before(collate, a, b)
  {
    hide Sort, Pending, TotalPreorder, SortedBy, ByOrder, Before, Concerns;
    var ordered := Sort(ByOrder(collate), activities);
    OrderedActivities(collate, activities);
    PendingMember(collate, classify, older, activities, item);
    id :| OpenedLast(classify, ordered, Entry(id, item));
    var k :| 0 <= k < |ordered| && OpenedAt(classify, ordered, Entry(id, item), k);
    a := ordered[k];
    forall b | b in activities && Concerns(classify(b), id) ensures !Before(collate, a, b) {
      var j :| 0 <= j < |ordered| && ordered[j] == b;
      SortedIndexes(collate, ordered, j, k);
    }
  }

  // Approvals

  const KINDS: set<string> := {"command", "file-read", "file-change"}

  /** The kind that a type of request stands for. */
  const KIND_OF_TYPE: map<string, string> := map[
    "command_execution_approval" := "command", "exec_command_approval" := "command", "dynamic_tool_call" := "command",
    "file_read_approval" := "file-read", "file_change_approval" := "file-change", "apply_patch_approval" := "file-change"]

  const STALE: set<string> := {
    "stale pending approval request", "stale pending user-input request", "unknown pending approval request",
    "unknown pending permission request", "unknown pending user-input request"}

  /** The activity is about request `id`, and of the given kind. */
  predicate IsAbout(a: Activity, kind: string, id: string) {
    a.kind == kind && a.payload.Some? && a.payload.value.requestId == Some(id) && id != ""
  }

  /** The payload names its kind, or a type that stands for one. */
  predicate HasKind(payload: Payload, kind: string) {
    || (kind in KINDS && payload.requestKind == Some(kind))
    || ((payload.requestKind.None? || payload.requestKind.value !in KINDS)
        && payload.requestType.Some? && payload.requestType.value in KIND_OF_TYPE && KIND_OF_TYPE[payload.requestType.value] == kind)
  }

  /** The failure says that the request is not open any more. */
  ghost predicate SaysStale(lower: string -> string, payload: Payload) {
    && payload.detail.Some? && payload.detail.value != ""
    && exists phrase, i :: phrase in STALE && 0 <= i <= |lower(payload.detail.value)| && phrase <= lower(payload.detail.value)[i..]
  }

  ghost predicate ClosesApproval(lower: string -> string, a: Activity, id: string) {
    || IsAbout(a, "approval.resolved", id)
    || (IsAbout(a, "provider.approval.respond.failed", id) && SaysStale(lower, a.payload.value))
  }

  predicate OpensApproval(a: Activity, p: Approval) {
    && IsAbout(a, "approval.requested", p.requestId) && HasKind(a.payload.value, p.requestKind)
    && p.createdAt == a.createdAt
    && p.detail == (if a.payload.value.detail == Some("") then None else a.payload.value.detail)
  }

  ghost predicate AboutApproval(lower: string -> string, a: Activity, id: string) {
    ClosesApproval(lower, a, id) || exists p: Approval :: p.requestId == id && OpensApproval(a, p)
  }

  lemma KindIsRead(a: Activity, kind: string)
    requires a.payload.Some?
    ensures RequestKind(a) == Some(kind) <==> HasKind(a.payload.value, kind)
  {}

  lemma StalePhrases(phrase: string)
    ensures phrase in STALE <==>
      || phrase == "stale pending approval request" || phrase == "stale pending user-input request"
      || phrase == "unknown pending approval request" || phrase == "unknown pending permission request"
      || phrase == "unknown pending user-input request"
  {}

  lemma StaleIsRead(lower: string -> string, a: Activity)
    requires a.payload.Some?
    ensures IsStaleFailure(lower, Detail(a)) <==> SaysStale(lower, a.payload.value)
  {
    hide STALE;
    if Detail(a).Some? {
      var text := lower(a.payload.value.detail.value);
      forall phrase ensures Contains(text, phrase) <==> exists i :: 0 <= i <= |text| && phrase <= text[i..] {}
      forall phrase ensures Contains(text, phrase) && phrase in STALE ==> IsStaleFailure(lower, Detail(a)) {
        hide Contains;
        StalePhrases(phrase);
      }
      if IsStaleFailure(lower, Detail(a)) { StalePhraseFound(text); }
    }
  }

  lemma StalePhraseFound(text: string)
    requires || Contains(text, "stale pending approval request") || Contains(text, "stale pending user-input request")
             || Contains(text, "unknown pending approval request") || Contains(text, "unknown pending permission request")
             || Contains(text, "unknown pending user-input request")
    ensures exists phrase :: phrase in STALE && Contains(text, phrase)
  {
    hide Contains, STALE;
    var phrase :| Contains(text, phrase) &&
      (|| phrase == "stale pending approval request" || phrase == "stale pending user-input request"
       || phrase == "unknown pending approval request" || phrase == "unknown pending permission request"
       || phrase == "unknown pending user-input request");
    StalePhrases(phrase);
  }

  lemma ApprovalSignalIs(lower: string -> string, a: Activity, id: string)
    ensures forall p :: ApprovalSignal(lower)(a) == Opens(id, p) <==> OpensApproval(a, p) && p.requestId == id
    ensures ApprovalSignal(lower)(a) == Closes(id) <==> ClosesApproval(lower, a, id)
    ensures Concerns(ApprovalSignal(lower)(a), id) <==> AboutApproval(lower, a, id)
  {
    hide SaysStale, IsStaleFailure, HasKind, RequestKind;
    if a.payload.Some? {
      StaleIsRead(lower, a);
      forall kind ensures RequestKind(a) == Some(kind) <==> HasKind(a.payload.value, kind) { KindIsRead(a, kind); }
    }
    var signal := ApprovalSignal(lower)(a);
    forall p ensures signal == Opens(id, p) <==> OpensApproval(a, p) && p.requestId == id {
      if OpensApproval(a, p) { assert RequestKind(a) == Some(p.requestKind); }
    }
    if signal.Opens? { assert signal.id == id ==> OpensApproval(a, signal.item); }
  }

  /** An opening with a readable kind that everything else about its request came before: the request is
      pending, with the time, kind and detail of that opening. */
  lemma ApprovalStaysOpen(collate: (string, string) -> int, lower: string -> string, activities: seq<Activity>, a: Activity,
                          p: Approval)
    requires TotalPreorder(collate) && a in activities && OpensApproval(a, p)
    requires forall b | b in activities && b != a && AboutApproval(lower, b, p.requestId) :: Before(collate, b, a)
    ensures p in PendingApprovals(collate, lower, activities)
  {
    hide TotalPreorder, Before, Pending, OpensApproval, AboutApproval, Concerns, ClosesApproval;
    forall b ensures Concerns(ApprovalSignal(lower)(b), p.requestId) <==> AboutApproval(lower, b, p.requestId) {
      ApprovalSignalIs(lower, b, p.requestId);
    }
    ApprovalSignalIs(lower, a, p.requestId);
    LastOpeningStays(collate, ApprovalSignal(lower), OlderApproval(collate), activities, a, p.requestId, p);
  }

  /** Conversely, whatever is pending has such an opening, and nothing about its request came after it. */
  lemma PendingApprovalWasOpened(collate: (string, string) -> int, lower: string -> string, activities: seq<Activity>, p: Approval)
    returns (a: Activity)
    requires TotalPreorder(collate) && p in PendingApprovals(collate, lower, activities)
    ensures a in activities && OpensApproval(a, p)
    ensures forall b | b in activities && AboutApproval(lower, b, p.requestId) :: !Before(collate, a, b)
  {
    hide TotalPreorder, Before, Pending, OpensApproval, AboutApproval, Concerns, ClosesApproval;
    var id;
    a, id := PendingWasOpened(collate, ApprovalSignal(lower), OlderApproval(collate), activities, p);
    ApprovalSignalIs(lower, a, id);
    forall b ensures Concerns(ApprovalSignal(lower)(b), id) <==> AboutApproval(lower, b, id) { ApprovalSignalIs(lower, b, id); }
  }

  /** A request that was resolved, or failed as stale, after its every opening is not pending. */
  lemma ClosedApprovalIsGone(collate: (string, string) -> int, lower: string -> string, activities: seq<Activity>, c: Activity,
                             id: string)
    requires TotalPreorder(collate) && c in activities && ClosesApproval(lower, c, id)
    requires forall a, p: Approval | a in activities && OpensApproval(a, p) && p.requestId == id :: Before(collate, a, c)
    ensures forall p | p in PendingApprovals(collate, lower, activities) :: p.requestId != id
  {
    hide TotalPreorder, Before, PendingApprovals, OpensApproval, ClosesApproval;
    forall p | p in PendingApprovals(collate, lower, activities) ensures p.requestId != id {
      assert AboutApproval(lower, c, id);
      var a := PendingApprovalWasOpened(collate, lower, activities, p);
    }
  }

  // User inputs

  predicate OpensInput(a: Activity, p: UserInput) {
    && IsAbout(a, "user-input.requested", p.requestId) && p.createdAt == a.createdAt
    && p.questions != [] && a.payload.value.questions.Some?
    && p.questions == ParseQuestionList(a.payload.value.questions.value)
  }

  ghost predicate ClosesInput(lower: string -> string, a: Activity, id: string) {
    || IsAbout(a, "user-input.resolved", id)
    || (IsAbout(a, "provider.user-input.respond.failed", id) && SaysStale(lower, a.payload.value))
  }

  ghost predicate AboutInput(lower: string -> string, a: Activity, id: string) {
    ClosesInput(lower, a, id) || exists p: UserInput :: p.requestId == id && OpensInput(a, p)
  }

  lemma InputSignalIs(lower: string -> string, a: Activity, id: string)
    ensures forall p :: UserInputSignal(lower)(a) == Opens(id, p) <==> OpensInput(a, p) && p.requestId == id
    ensures UserInputSignal(lower)(a) == Closes(id) <==> ClosesInput(lower, a, id)
    ensures Concerns(UserInputSignal(lower)(a), id) <==> AboutInput(lower, a, id)
  {
    hide SaysStale, IsStaleFailure, ParseQuestionList;
    if a.payload.Some? { StaleIsRead(lower, a); }
    var signal := UserInputSignal(lower)(a);
    if signal.Opens? { assert signal.id == id ==> OpensInput(a, signal.item); }
  }

  /** An opening with a readable question that everything else about its request came before: the request
      is pending, with the time and questions of that opening. */
  lemma InputStaysOpen(collate: (string, string) -> int, lower: string -> string, activities: seq<Activity>, a: Activity,
                       p: UserInput)
    requires TotalPreorder(collate) && a in activities && OpensInput(a, p)
    requires forall b | b in activities && b != a && AboutInput(lower, b, p.requestId) :: Before(collate, b, a)
    ensures p in PendingUserInputs(collate, lower, activities)
  {
    hide TotalPreorder, Before, Pending, OpensInput, AboutInput, Concerns, ClosesInput;
    forall b ensures Concerns(UserInputSignal(lower)(b), p.requestId) <==> AboutInput(lower, b, p.requestId) {
      InputSignalIs(lower, b, p.requestId);
    }
    InputSignalIs(lower, a, p.requestId);
    LastOpeningStays(collate, UserInputSignal(lower), OlderUserInput(collate), activities, a, p.requestId, p);
  }

  /** Conversely, whatever is pending has such an opening, and nothing about its request came after it. */
  lemma PendingInputWasOpened(collate: (string, string) -> int, lower: string -> string, activities: seq<Activity>, p: UserInput)
    returns (a: Activity)
    requires TotalPreorder(collate) && p in PendingUserInputs(collate, lower, activities)
    ensures a in activities && OpensInput(a, p)
    ensures forall b | b in activities && AboutInput(lower, b, p.requestId) :: !Before(collate, a, b)
  {
    hide TotalPreorder, Before, Pending, OpensInput, AboutInput, Concerns, ClosesInput;
    var id;
    a, id := PendingWasOpened(collate, UserInputSignal(lower), OlderUserInput(collate), activities, p);
    InputSignalIs(lower, a, id);
    forall b ensures Concerns(UserInputSignal(lower)(b), id) <==> AboutInput(lower, b, id) { InputSignalIs(lower, b, id); }
  }

  /** A request that was resolved, or failed as stale, after its every opening is not pending. */
  lemma ClosedInputIsGone(collate: (string, string) -> int, lower: string -> string, activities: seq<Activity>, c: Activity,
                          id: string)
    requires TotalPreorder(collate) && c in activities && ClosesInput(lower, c, id)
    requires forall a, p: UserInput | a in activities && OpensInput(a, p) && p.requestId == id :: Before(collate, a, c)
    ensures forall p | p in PendingUserInputs(collate, lower, activities) :: p.requestId != id
  {
    hide TotalPreorder, Before, PendingUserInputs, OpensInput, ClosesInput;
    forall p | p in PendingUserInputs(collate, lower, activities) ensures p.requestId != id {
      assert AboutInput(lower, c, id);
      var a := PendingInputWasOpened(collate, lower, activities, p);
    }
  }

  // Reading questions

  lemma {:induction false} ChoicesAppend(a: seq<RawOption>, b: seq<RawOption>)
    ensures ParseChoices(a + b) == ParseChoices(a) + ParseChoices(b)
  {
    if a == [] {
      assert a + b == b;
    } else {
      assert (a + b)[1..] == a[1..] + b;
      ChoicesAppend(a[1..], b);
    }
  }

  /** Unreadable choices are left out; the others keep their order and their texts. */
  lemma ChoicesAround(a: seq<RawOption>, x: RawOption, b: seq<RawOption>)
    ensures ParseChoices(a + [x] + b) == ParseChoices(a) +
      (if x.caption == None || x.description == None then [] else [Choice(x.caption.value, x.description.value)]) + ParseChoices(b)
  {
    ChoicesAppend(a + [x], b);
    ChoicesAppend(a, [x]);
    assert [x][1..] == [];
  }

  lemma {:induction false} SomeChoice(options: seq<RawOption>)
    ensures ParseChoices(options) != [] <==> exists x :: x in options && x.caption.Some? && x.description.Some?
  {
    if options != [] {
      SomeChoice(options[1..]);
      assert forall x :: x in options <==> x == options[0] || x in options[1..];
    }
  }

  lemma {:induction false} QuestionsAppend(a: seq<RawQuestion>, b: seq<RawQuestion>)
    ensures ParseQuestionList(a + b) == ParseQuestionList(a) + ParseQuestionList(b)
  {
    hide ParseQuestion;
    if a == [] {
      assert a + b == b;
    } else {
      assert (a + b)[1..] == a[1..] + b;
      QuestionsAppend(a[1..], b);
    }
  }

  /** A question is readable when it has all its texts and a readable choice. */
  predicate Readable(raw: RawQuestion) {
    && raw.id.Some? && raw.header.Some? && raw.question.Some? && raw.options.Some?
    && exists x :: x in raw.options.value && x.caption.Some? && x.description.Some?
  }

  /** Unreadable questions are left out; the others keep their order and their data. */
  lemma QuestionsAround(a: seq<RawQuestion>, x: RawQuestion, b: seq<RawQuestion>)
    ensures !Readable(x) ==> ParseQuestionList(a + [x] + b) == ParseQuestionList(a) + ParseQuestionList(b)
    ensures Readable(x) ==>
      ParseQuestionList(a + [x] + b) == ParseQuestionList(a) +
        [Question(x.id.value, x.header.value, x.question.value, ParseChoices(x.options.value), x.multiSelect)]
        + ParseQuestionList(b)
  {
    hide ParseChoices, ParseQuestionList;
    QuestionsAppend(a + [x], b);
    QuestionsAppend(a, [x]);
    OneQuestion(x);
    assert ParseQuestionList(a) + [] == ParseQuestionList(a);
  }

  lemma OneQuestion(x: RawQuestion)
    ensures ParseQuestionList([x]) ==
      if Readable(x) then [Question(x.id.value, x.header.value, x.question.value, ParseChoices(x.options.value), x.multiSelect)]
      else []
  {
    hide ParseChoices;
    assert [x][1..] == [];
    if x.options.Some? { SomeChoice(x.options.value); }
  }
}
