/** Images and terminal contexts of a composer draft (`apps/web/src/composerDraftStore.ts`,
    `apps/web/src/lib/terminalContext.ts`). */
module ComposerDraftItems {
  import opened Text
  import opened Sequences
  import opened Deduplication
  import opened ComposerMentions

  datatype Image = Image(id: string, name: string, mimeType: string, sizeBytes: nat, previewUrl: string)

  /** `text` and the other fields are carried along. */
  datatype Context = Context(id: string, threadId: string, createdAt: string, terminalId: string, terminalLabel: string,
                             lineStart: real, lineEnd: real, text: string)

  const NUL: string := "\U{0000}"

  /** `composerImageDedupKey` */
  function ImageKey(image: Image): string {
    image.mimeType + NUL + NatText(image.sizeBytes) + NUL + image.name
  }

  /** The text of a whole number. */
  function LineText(x: real): string {
    if x < 0.0 then "-" + NatText(-x.Floor) else NatText(x.Floor)
  }

  /** `terminalContextDedupKey` */
  function ContextKey(context: Context): string {
    context.terminalId + NUL + LineText(context.lineStart) + NUL + LineText(context.lineEnd)
  }

  const IMAGES: Identity<Image> := Identity((image: Image) => image.id, ImageKey)

  const CONTEXTS: Identity<Context> := Identity((context: Context) => context.id, ContextKey)

  // Normalising a terminal context

  function AtLeast(low: real, x: real): real {
    if low >= x then low else x
  }

  /** `text.replace(/\r\n/g, "\n")` */
  function UnixLines(s: string): string {
    if |s| >= 2 && s[0] == '\r' && s[1] == '\n' then "\n" + UnixLines(s[2..])
    else if s == [] then []
    else [s[0]] + UnixLines(s[1..])
  }

  function TrimLinesStart(s: string): string {
    if s != [] && s[0] == '\n' then TrimLinesStart(s[1..]) else s
  }

  function TrimLinesEnd(s: string): string {
    if s != [] && s[|s| - 1] == '\n' then TrimLinesEnd(s[..|s| - 1]) else s
  }

  /** `normalizeTerminalContextText` */
  function NormalizeText(s: string): string {
    TrimLinesEnd(TrimLinesStart(UnixLines(s)))
  }

  /** `normalizeTerminalContextForThread` */
  function Normalize(threadId: string, context: Context): Option<Context> {
    var terminalId, terminalLabel := Trim(context.terminalId), Trim(context.terminalLabel);
    if terminalId == "" || terminalLabel == "" then None
    else
      var lineStart := AtLeast(1.0, context.lineStart.Floor as real);
      var lineEnd := AtLeast(lineStart, context.lineEnd.Floor as real);
      Some(context.(threadId := threadId, terminalId := terminalId, terminalLabel := terminalLabel,
                    lineStart := lineStart, lineEnd := lineEnd, text := NormalizeText(context.text)))
  }

  function NormalizedAll(threadId: string, contexts: seq<Context>): seq<Context> {
    if contexts == [] then []
    else
      var front := NormalizedAll(threadId, contexts[..|contexts| - 1]);
      match Normalize(threadId, contexts[|contexts| - 1])
      case None => front
      case Some(context) => front + [context]
  }

  /** What `normalizeTerminalContextsForThread` returns: the readable contexts, each id and each
      stretch of lines once. */
  function NormalizeContexts(threadId: string, contexts: seq<Context>): seq<Context> {
    Accept(CONTEXTS, [], NormalizedAll(threadId, contexts))
  }

  /** Whole lines from the first on, in a named terminal. */
  predicate WellFormed(context: Context) {
    && context.terminalId != "" && Trimmed(context.terminalId)
    && context.terminalLabel != "" && Trimmed(context.terminalLabel)
    && context.lineStart == context.lineStart.Floor as real && context.lineEnd == context.lineEnd.Floor as real
    && 1.0 <= context.lineStart <= context.lineEnd
  }

  lemma NormalizeIsWellFormed(threadId: string, context: Context)
    ensures Normalize(threadId, context).Some? ==> WellFormed(Normalize(threadId, context).value)
  {
    hide Trimmed, Trim;
    TrimIsTrimmed(context.terminalId);
    TrimIsTrimmed(context.terminalLabel);
  }

  /** A well-formed context stays what it is, except for its thread and its text. */
  lemma NormalizeKeeps(threadId: string, context: Context)
    requires WellFormed(context)
    ensures Normalize(threadId, context) ==
      Some(context.(threadId := threadId, text := NormalizeText(context.text)))
  {
    hide Trimmed, Trim;
    TrimFixes(context.terminalId);
    TrimFixes(context.terminalLabel);
  }

  /** What normalising makes of a context: it is readable exactly when its terminal and label have
      something besides white space. The lines are rounded down, the first to no less than one and the
      last to no less than the first; id, time and thread are carried over. */
  lemma NormalizeReads(threadId: string, context: Context)
    ensures var r := Normalize(threadId, context);
      && (r.Some? <==> Trim(context.terminalId) != "" && Trim(context.terminalLabel) != "")
      && (r.Some? ==>
            var n := r.value;
            && n.id == context.id && n.createdAt == context.createdAt && n.threadId == threadId
            && n.terminalId == Trim(context.terminalId) && n.terminalLabel == Trim(context.terminalLabel)
            && n.text == NormalizeText(context.text)
            && (if context.lineStart < 1.0 then n.lineStart == 1.0 else n.lineStart <= context.lineStart < n.lineStart + 1.0)
            && (if context.lineEnd < n.lineStart then n.lineEnd == n.lineStart
                else n.lineEnd <= context.lineEnd < n.lineEnd + 1.0))
  {
    hide Trim, NormalizeText;
  }

  predicate WindowsBreak(s: string, i: int) {
    0 <= i < |s| - 1 && s[i] == '\r' && s[i + 1] == '\n'
  }

  lemma UnixStep(s: string)
    requires s != []
    ensures UnixLines(s) == if WindowsBreak(s, 0) then "\n" + UnixLines(s[2..]) else [s[0]] + UnixLines(s[1..])
  {}

  /** Every break in the style of Windows becomes one in the style of Unix; nothing else changes. */
  lemma {:induction false} BreaksBecomeUnix(a: string, b: string)
    ensures UnixLines(a + "\r\n" + b) == UnixLines(a) + "\n" + UnixLines(b)
    decreases |a|
  {
    hide UnixLines;
    var s := a + "\r\n" + b;
    UnixStep(s);
    if a == [] {
      assert WindowsBreak(s, 0) && s[2..] == b;
      EmptyHasNoBreak();
    } else {
      UnixStep(a);
      assert s[0] == a[0] && s[1] == if |a| > 1 then a[1] else '\r';
      if WindowsBreak(a, 0) {
        assert s[2..] == a[2..] + "\r\n" + b;
        BreaksBecomeUnix(a[2..], b);
      } else {
        assert s[1..] == a[1..] + "\r\n" + b;
        BreaksBecomeUnix(a[1..], b);
      }
    }
  }

  lemma EmptyHasNoBreak()
    ensures UnixLines("") == ""
  {}

  lemma {:induction false} NoBreakNoChange(s: string)
    requires forall i :: !WindowsBreak(s, i)
    ensures UnixLines(s) == s
  {
    hide UnixLines;
    if s == [] {
      EmptyHasNoBreak();
    } else {
      UnixStep(s);
      forall i ensures !WindowsBreak(s[1..], i) { assert !WindowsBreak(s, i + 1); }
      assert !WindowsBreak(s, 0);
      NoBreakNoChange(s[1..]);
    }
  }

  predicate AllBreaks(s: string) {
    forall i | 0 <= i < |s| :: s[i] == '\n'
  }

  lemma {:induction false} StartIsTrimmed(s: string)
    ensures var r := TrimLinesStart(s);
      && |r| <= |s| && r == s[|s| - |r|..] && AllBreaks(s[..|s| - |r|]) && (r == [] || r[0] != '\n')
  {
    if s != [] && s[0] == '\n' {
      StartIsTrimmed(s[1..]);
      var r := TrimLinesStart(s[1..]);
      assert s[..|s| - |r|] == [s[0]] + s[1..][..|s| - 1 - |r|];
    }
  }

  lemma {:induction false} EndIsTrimmed(s: string)
    ensures var r := TrimLinesEnd(s);
      r <= s && AllBreaks(s[|r|..]) && (r == [] || r[|r| - 1] != '\n')
  {
    if s != [] && s[|s| - 1] == '\n' {
      EndIsTrimmed(s[..|s| - 1]);
      var r := TrimLinesEnd(s[..|s| - 1]);
      assert s[|r|..] == s[..|s| - 1][|r|..] + [s[|s| - 1]];
    }
  }

  /** Of the text with Unix breaks, what is left is what stands between the first and the last line that
      is not empty. */
  lemma TextIsTrimmed(s: string) returns (front: string, back: string)
    ensures UnixLines(s) == front + NormalizeText(s) + back && AllBreaks(front) && AllBreaks(back)
    ensures var r := NormalizeText(s); r == [] || (r[0] != '\n' && r[|r| - 1] != '\n')
  {
    hide UnixLines, TrimLinesStart, TrimLinesEnd, AllBreaks;
    var u := UnixLines(s);
    var t := TrimLinesStart(u);
    StartIsTrimmed(u);
    EndIsTrimmed(t);
    var r := TrimLinesEnd(t);
    front, back := u[..|u| - |t|], t[|r|..];
    assert t == r + back && u == front + t;
    assert r != [] ==> r[0] == t[0];
  }

  /** Images are told apart by type, size and name, as long as no type contains the separator. */
  lemma ImageKeyIsFile(a: Image, b: Image)
    requires NUL[0] !in a.mimeType && NUL[0] !in b.mimeType
    ensures ImageKey(a) == ImageKey(b) <==> a.mimeType == b.mimeType && a.sizeBytes == b.sizeBytes && a.name == b.name
  {
    hide NatText;
    NoNulInDigits(a.sizeBytes);
    NoNulInDigits(b.sizeBytes);
    if ImageKey(a) == ImageKey(b) {
      var s, t := NatText(a.sizeBytes) + NUL + a.name, NatText(b.sizeBytes) + NUL + b.name;
      assert ImageKey(a) == a.mimeType + [NUL[0]] + s && ImageKey(b) == b.mimeType + [NUL[0]] + t;
      SplitsFirst(NUL[0], a.mimeType, s, b.mimeType, t);
      SplitsFirst(NUL[0], NatText(a.sizeBytes), a.name, NatText(b.sizeBytes), b.name);
      NatTextInjective(a.sizeBytes, b.sizeBytes);
    }
  }

  lemma NoNulInDigits(n: nat)
    ensures NUL[0] !in NatText(n)
  {
    var s := NatText(n);
    assert forall i | 0 <= i < |s| :: IsDigit(s[i]);
  }

  lemma ReadableLine(x: real)
    requires x == x.Floor as real && x >= 1.0
    ensures NUL[0] !in LineText(x) && LineText(x) == NatText(x.Floor)
  {
    hide NatText;
    assert forall i | 0 <= i < |LineText(x)| :: IsDigit(LineText(x)[i]);
  }

  /** The key of a well-formed context tells apart exactly the different stretches of lines, even
      where a terminal id contains the separator. */
  lemma ContextKeyIsStretch(a: Context, b: Context)
    requires WellFormed(a) && WellFormed(b)
    ensures ContextKey(a) == ContextKey(b) <==>
            a.terminalId == b.terminalId && a.lineStart == b.lineStart && a.lineEnd == b.lineEnd
  {
    hide NatText, LineText, Trimmed;
    ReadableLine(a.lineStart);
    ReadableLine(a.lineEnd);
    ReadableLine(b.lineStart);
    ReadableLine(b.lineEnd);
    if ContextKey(a) == ContextKey(b) {
      var s, t := a.terminalId + NUL + LineText(a.lineStart), b.terminalId + NUL + LineText(b.lineStart);
      SplitsLast(NUL[0], s, LineText(a.lineEnd), t, LineText(b.lineEnd));
      SplitsLast(NUL[0], a.terminalId, LineText(a.lineStart), b.terminalId, LineText(b.lineStart));
      NatTextInjective(a.lineStart.Floor, b.lineStart.Floor);
      NatTextInjective(a.lineEnd.Floor, b.lineEnd.Floor);
    }
  }

  lemma {:induction false} NormalizedAppend(threadId: string, a: seq<Context>, b: seq<Context>)
    ensures NormalizedAll(threadId, a + b) == NormalizedAll(threadId, a) + NormalizedAll(threadId, b)
    decreases |b|
  {
    hide Normalize;
    if b == [] {
      assert a + b == a;
    } else {
      var front := b[..|b| - 1];
      NormalizedAppend(threadId, a, front);
      assert (a + b)[..|a + b| - 1] == a + front;
      if Normalize(threadId, b[|b| - 1]).Some? {
        Associative(NormalizedAll(threadId, a), NormalizedAll(threadId, front), [Normalize(threadId, b[|b| - 1]).value]);
      }
    }
  }

  predicate AllWellFormed(contexts: seq<Context>) {
    forall i | 0 <= i < |contexts| :: WellFormed(contexts[i])
  }

  lemma {:induction false} NormalizedAllWellFormed(threadId: string, contexts: seq<Context>)
    ensures AllWellFormed(NormalizedAll(threadId, contexts))
  {
    hide Normalize, WellFormed;
    if contexts != [] {
      NormalizedAllWellFormed(threadId, contexts[..|contexts| - 1]);
      NormalizeIsWellFormed(threadId, contexts[|contexts| - 1]);
    }
  }

  /** Normalising well-formed contexts again keeps every id and every key. */
  lemma {:induction false} NormalizedAlike(threadId: string, contexts: seq<Context>)
    requires AllWellFormed(contexts)
    ensures Alike(CONTEXTS, contexts, NormalizedAll(threadId, contexts))
  {
    hide Normalize, WellFormed, LineText, NormalizeText;
    if contexts != [] {
      var front, last := contexts[..|contexts| - 1], contexts[|contexts| - 1];
      NormalizedAlike(threadId, front);
      NormalizeKeeps(threadId, last);
      var s, t := contexts, NormalizedAll(threadId, contexts);
      assert t == NormalizedAll(threadId, front) + [Normalize(threadId, last).value];
      forall i | 0 <= i < |s| ensures CONTEXTS.id(s[i]) == CONTEXTS.id(t[i]) && CONTEXTS.key(s[i]) == CONTEXTS.key(t[i]) {
        if i < |front| { assert front[i] == s[i]; }
      }
    }
  }

  lemma {:induction false} AcceptedAreOffered<T>(who: Identity<T>, kept: seq<T>, incoming: seq<T>, x: T)
    ensures x in Accept(who, kept, incoming) ==> x in incoming
  {
    if incoming != [] { AcceptedAreOffered(who, kept, incoming[..|incoming| - 1], x); }
  }

  lemma AcceptedWellFormed(kept: seq<Context>, threadId: string, contexts: seq<Context>)
    ensures AllWellFormed(Accept(CONTEXTS, kept, NormalizedAll(threadId, contexts)))
  {
    hide Accept, NormalizedAll, WellFormed;
    var accepted := Accept(CONTEXTS, kept, NormalizedAll(threadId, contexts));
    NormalizedAllWellFormed(threadId, contexts);
    forall i | 0 <= i < |accepted| ensures WellFormed(accepted[i]) {
      AcceptedAreOffered(CONTEXTS, kept, NormalizedAll(threadId, contexts), accepted[i]);
    }
  }

  /** The slice that `addTerminalContexts` takes holds exactly the newly accepted contexts. */
  lemma SliceIsNew(threadId: string, existing: seq<Context>, contexts: seq<Context>)
    requires DistinctItems(CONTEXTS, existing) && AllWellFormed(existing)
    ensures var all := NormalizeContexts(threadId, existing + contexts);
            |all| >= |existing|
            && all[|existing|..] == Accept(CONTEXTS, existing, NormalizedAll(threadId, contexts))
  {
    hide Accept, Alike, DistinctItems, NormalizedAll, AllWellFormed;
    NormalizedAppend(threadId, existing, contexts);
    NormalizedAlike(threadId, existing);
    SliceIsAccepted(CONTEXTS, existing, NormalizedAll(threadId, existing), NormalizedAll(threadId, contexts));
  }

  lemma NormalizedNext(threadId: string, contexts: seq<Context>, k: nat)
    requires k < |contexts|
    ensures var front := NormalizedAll(threadId, contexts[..k]);
            NormalizedAll(threadId, contexts[..k + 1]) ==
              match Normalize(threadId, contexts[k]) case None => front case Some(context) => front + [context]
  {
    assert contexts[..k + 1][..k] == contexts[..k];
  }

  lemma AcceptPush<T>(who: Identity<T>, kept: seq<T>, incoming: seq<T>, x: T)
    ensures var accepted := Accept(who, kept, incoming);
            Accept(who, kept, incoming + [x]) == if Clashes(who, x, kept + accepted) then accepted else accepted + [x]
  {
    assert (incoming + [x])[..|incoming|] == incoming;
  }

  /** `normalizeTerminalContextsForThread` */
  method NormalizeTerminalContextsForThread(threadId: string, contexts: seq<Context>) returns (normalized: seq<Context>)
    ensures normalized == NormalizeContexts(threadId, contexts)
  {
    hide Accept, Clashes, Ids, Keys, Normalize, NormalizedAll;
    var existingIds: set<string>, existingDedupKeys: set<string> := {}, {};
    normalized := [];
    StartNormalizing(threadId, contexts);
    var k := 0;
    while k < |contexts|
      invariant 0 <= k <= |contexts|
      invariant normalized == Accept(CONTEXTS, [], NormalizedAll(threadId, contexts[..k]))
      invariant existingIds == Ids(CONTEXTS, normalized) && existingDedupKeys == Keys(CONTEXTS, normalized)
    {
      var candidate := Normalize(threadId, contexts[k]);
      NormalizedNext(threadId, contexts, k);
      k := k + 1;
      if candidate.None? {
        continue;
      }
      var context := candidate.value;
      var dedupKey := CONTEXTS.key(context);
      AcceptPush(CONTEXTS, [], NormalizedAll(threadId, contexts[..k - 1]), context);
      assert [] + normalized == normalized;
      ClashesIsLookup(CONTEXTS, context, normalized);
      if CONTEXTS.id(context) in existingIds || dedupKey in existingDedupKeys {
        continue;
      }
      LookupsGrow(CONTEXTS, normalized, context);
      normalized := normalized + [context];
      existingIds := existingIds + {CONTEXTS.id(context)};
      existingDedupKeys := existingDedupKeys + {dedupKey};
    }
    assert contexts[..k] == contexts;
  }

  lemma StartNormalizing(threadId: string, contexts: seq<Context>)
    ensures Accept(CONTEXTS, [], NormalizedAll(threadId, contexts[..0])) == []
    ensures Ids(CONTEXTS, []) == {} && Keys(CONTEXTS, []) == {}
  {
    assert NormalizedAll(threadId, []) == [];
  }

  // Placeholders

  function Repeat(n: nat): string {
    seq(n, _ => PLACEHOLDER)
  }

  /** `ensureInlineTerminalContextPlaceholders` */
  function EnsurePlaceholders(prompt: string, count: nat): string {
    if count <= CountPlaceholders(prompt) then prompt else Repeat(count - CountPlaceholders(prompt)) + prompt
  }

  lemma {:induction false} RepeatCounts(n: nat, prompt: string)
    ensures CountPlaceholders(Repeat(n) + prompt) == n + CountPlaceholders(prompt)
  {
    if n == 0 {
      assert Repeat(0) + prompt == prompt;
    } else {
      assert (Repeat(n) + prompt)[1..] == Repeat(n - 1) + prompt;
      RepeatCounts(n - 1, prompt);
    }
  }

  /** There are as many placeholders as asked for, the prompt follows them, and asking twice is asking
      for the larger number. */
  lemma PlaceholdersSuffice(prompt: string, few: nat, many: nat)
    requires few <= many
    ensures var r := EnsurePlaceholders(prompt, few);
            CountPlaceholders(r) == (if few <= CountPlaceholders(prompt) then CountPlaceholders(prompt) else few)
            && |r| >= |prompt| && r[|r| - |prompt|..] == prompt
    ensures EnsurePlaceholders(EnsurePlaceholders(prompt, few), many) == EnsurePlaceholders(prompt, many)
  {
    hide CountPlaceholders;
    var have := CountPlaceholders(prompt);
    if few > have {
      RepeatCounts(few - have, prompt);
      assert Repeat(many - few) + (Repeat(few - have) + prompt) == Repeat(many - have) + prompt;
    }
  }
}
