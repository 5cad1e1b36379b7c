/** Splitting a prompt into text, `@mention`, `$skill` and terminal placeholder segments. */
module ComposerMentions {
  import opened Text
  import opened Sequences
  import opened Sorting

  /** Stands in the prompt for one attached terminal context. */
  const PLACEHOLDER: char := '\U{FFFC}'

  datatype Segment<+C> =
    | TextSegment(text: string)
    | MentionSegment(path: string)
    | SkillSegment(name: string)
    | TerminalContextSegment(context: Option<C>)

  datatype Kind = Mention | Skill

  datatype Match = Match(kind: Kind, value: string, start: nat, end: nat)

  // What the two regular expressions accept

  function Sigil(kind: Kind): char {
    if kind == Mention then '@' else '$'
  }

  predicate FirstBodyChar(kind: Kind, c: char) {
    if kind == Mention then !IsSpace(c) && c != '@' else IsLetter(c)
  }

  predicate BodyChar(kind: Kind, c: char) {
    if kind == Mention then !IsSpace(c) && c != '@'
    else IsLetter(c) || IsDigit(c) || c == ':' || c == '_' || c == '-'
  }

  /** End of the longest run of body characters from `i`. */
  function RunEnd(kind: Kind, text: string, i: nat): (e: nat)
    requires i <= |text|
    ensures i <= e <= |text| && (e < |text| ==> !BodyChar(kind, text[e]))
    ensures forall k | i <= k < e :: BodyChar(kind, text[k])
    decreases |text| - i
  {
    if i < |text| && BodyChar(kind, text[i]) then RunEnd(kind, text, i + 1) else i
  }

  /** A token may start at the start of the text or after white space. */
  predicate Boundary(text: string, s: nat)
    requires s <= |text|
  {
    s == 0 || IsSpace(text[s - 1])
  }

  /** The sigil and body of a token at `s`, whatever stands before it: a sigil, a body as long
      as possible, and white space right behind it. */
  function BodyAt(kind: Kind, text: string, s: nat): (m: Option<Match>)
    ensures m.Some? ==> m.value.kind == kind && m.value.start == s && s + 1 < m.value.end < |text|
    ensures m.Some? ==> m.value.value == text[s + 1..m.value.end] && IsSpace(text[m.value.end])
    ensures m.Some? ==> forall k | s <= k < m.value.end :: !IsSpace(text[k])
    ensures m.Some? ==> text[s] == Sigil(kind)
  {
    if s + 1 < |text| && text[s] == Sigil(kind) && FirstBodyChar(kind, text[s + 1]) then
      var e := RunEnd(kind, text, s + 2);
      if e < |text| && IsSpace(text[e]) then Some(Match(kind, text[s + 1..e], s, e)) else None
    else None
  }

  /** The pattern itself, as a relation: `text[s..e]` is a sigil, a first body character and
      further body characters, and white space follows. */
  ghost predicate PatternMatches(kind: Kind, text: string, s: nat, e: nat) {
    && s + 1 < e < |text| && text[s] == Sigil(kind) && IsSpace(text[e])
    && FirstBodyChar(kind, text[s + 1]) && forall k | s + 2 <= k < e :: BodyChar(kind, text[k])
  }

  /** The greedy scan finds the pattern's one match at `s` exactly when there is one, so giving
      characters back never helps. */
  lemma ScanIsPattern(kind: Kind, text: string, s: nat, e: nat)
    ensures PatternMatches(kind, text, s, e) <==> BodyAt(kind, text, s) == Some(Match(kind, if s + 1 < e < |text| then text[s + 1..e] else [], s, e))
  {
    if PatternMatches(kind, text, s, e) {
      assert !BodyChar(kind, text[e]);
      assert RunEnd(kind, text, s + 2) == e;
    }
  }

  function TokenAt(kind: Kind, text: string, s: nat): (m: Option<Match>) {
    if s <= |text| && Boundary(text, s) then BodyAt(kind, text, s) else None
  }

  /** Every token of one kind that starts at `s` or later, in order. */
  function TokensOfKind(kind: Kind, text: string, s: nat): seq<Match>
    decreases |text| - s
  {
    if s >= |text| then []
    else match TokenAt(kind, text, s)
      case Some(m) => [m] + TokensOfKind(kind, text, s + 1)
      case None => TokensOfKind(kind, text, s + 1)
  }

  function AnyTokenAt(text: string, s: nat): Option<Match> {
    var m := TokenAt(Mention, text, s);
    if m.Some? then m else TokenAt(Skill, text, s)
  }

  /** Every token of either kind that starts at `s` or later, in order. */
  function Tokens(text: string, s: nat): seq<Match>
    decreases |text| - s
  {
    if s >= |text| then []
    else match AnyTokenAt(text, s)
      case Some(m) => [m] + Tokens(text, s + 1)
      case None => Tokens(text, s + 1)
  }

  /** No token starts inside another one or at its end. */
  lemma NoTokenInside(kind: Kind, other: Kind, text: string, s: nat, p: nat)
    requires TokenAt(kind, text, s).Some? && s < p <= TokenAt(kind, text, s).value.end
    ensures TokenAt(other, text, p).None?
  {
    hide BodyAt;
  }

  lemma {:induction false} SkipToken(kind: Kind, other: Kind, text: string, s: nat, p: nat)
    requires TokenAt(kind, text, s).Some? && s < p <= TokenAt(kind, text, s).value.end + 1
    ensures TokensOfKind(other, text, p) == TokensOfKind(other, text, TokenAt(kind, text, s).value.end + 1)
    decreases TokenAt(kind, text, s).value.end + 1 - p
  {
    hide BodyAt;
    if p <= TokenAt(kind, text, s).value.end {
      NoTokenInside(kind, other, text, s, p);
      SkipToken(kind, other, text, s, p + 1);
    }
  }

  /** One attempt of the engine: an empty prefix at the very start of the text, otherwise one
      white space character, and the sigil and body right behind the prefix. */
  function AttemptAt(kind: Kind, text: string, p: nat): Option<Match>
    requires p < |text|
  {
    var m := if p == 0 then BodyAt(kind, text, 0) else None;
    if m.None? && IsSpace(text[p]) then BodyAt(kind, text, p + 1) else m
  }

  /** The first position whose token an attempt at `p` or later can still report. */
  function Frontier(p: nat): nat {
    if p == 0 then 0 else p + 1
  }

  lemma AttemptFails(kind: Kind, text: string, p: nat)
    requires p < |text| && AttemptAt(kind, text, p).None?
    ensures TokensOfKind(kind, text, Frontier(p)) == TokensOfKind(kind, text, Frontier(p + 1))
  {
    assert TokenAt(kind, text, p + 1).None?;
    if p == 0 { assert TokenAt(kind, text, 0).None?; }
  }

  lemma HeadToken(kind: Kind, text: string, s: nat, m: Match)
    requires TokenAt(kind, text, s) == Some(m)
    ensures TokensOfKind(kind, text, s) == [m] + TokensOfKind(kind, text, m.end + 1)
  {
    hide BodyAt;
    SkipToken(kind, kind, text, s, s + 1);
  }

  lemma AttemptMatches(kind: Kind, text: string, p: nat, m: Match)
    requires p < |text| && AttemptAt(kind, text, p) == Some(m)
    ensures p < m.end < |text| && TokenAt(kind, text, m.start) == Some(m)
    ensures TokensOfKind(kind, text, Frontier(p)) == [m] + TokensOfKind(kind, text, Frontier(m.end))
  {
    hide BodyAt;
    HeadToken(kind, text, m.start, m);
    if p == 0 && m.start == 1 {
      assert TokenAt(kind, text, 0).None?;
      assert TokensOfKind(kind, text, 0) == TokensOfKind(kind, text, 1);
    }
  }

  /** `text.matchAll(pattern)`: the engine tries every index from `lastIndex` on and resumes
      behind each match, at the white space that ended it. */
  method MatchAll(kind: Kind, text: string) returns (matches: seq<Match>)
    ensures matches == TokensOfKind(kind, text, 0)
  {
    hide TokenAt, AttemptAt;
    matches := [];
    var lastIndex: nat := 0;
    while lastIndex < |text|
      invariant lastIndex <= |text|
      invariant matches + TokensOfKind(kind, text, Frontier(lastIndex)) == TokensOfKind(kind, text, 0)
      decreases |text| - lastIndex
    {
      match AttemptAt(kind, text, lastIndex) {
        case Some(m) =>
          AttemptMatches(kind, text, lastIndex, m);
          Associative(matches, [m], TokensOfKind(kind, text, Frontier(m.end)));
          matches := matches + [m];
          lastIndex := m.end;
        case None =>
          AttemptFails(kind, text, lastIndex);
          lastIndex := lastIndex + 1;
      }
    }
  }

  // Sorting the two match lists together

  function CompareStarts(a: Match, b: Match): int {
    a.start - b.start
  }

  lemma {:induction false} TokensOfKindSpec(kind: Kind, text: string, s: nat)
    ensures forall m :: m in TokensOfKind(kind, text, s) ==> s <= m.start && TokenAt(kind, text, m.start) == Some(m)
    decreases |text| - s
  {
    if s < |text| {
      TokensOfKindSpec(kind, text, s + 1);
    }
  }

  lemma {:induction false} TokensSpec(text: string, s: nat)
    ensures forall m :: m in Tokens(text, s) ==> s <= m.start && AnyTokenAt(text, m.start) == Some(m)
    decreases |text| - s
  {
    hide Boundary;
    if s < |text| {
      TokensSpec(text, s + 1);
    }
  }

  lemma {:induction false} TokensSorted(text: string, s: nat)
    ensures SortedBy(CompareStarts, Tokens(text, s))
    decreases |text| - s
  {
    hide BodyAt, Boundary;
    if s < |text| {
      TokensSorted(text, s + 1);
      TokensSpec(text, s + 1);
      var rest := Tokens(text, s + 1);
      assert forall j | 0 <= j < |rest| :: rest[j] in rest;
    }
  }

  lemma {:induction false} TokensPermute(text: string, s: nat)
    ensures multiset(Tokens(text, s)) == multiset(TokensOfKind(Mention, text, s)) + multiset(TokensOfKind(Skill, text, s))
    decreases |text| - s
  {
    hide BodyAt;
    if s < |text| {
      TokensPermute(text, s + 1);
    }
  }

  /** The two scans of the text, put together and sorted by start, are the tokens in order. */
  lemma SortedScansAreTokens(text: string)
    ensures Sort(CompareStarts, TokensOfKind(Mention, text, 0) + TokensOfKind(Skill, text, 0)) == Tokens(text, 0)
  {
    var both := TokensOfKind(Mention, text, 0) + TokensOfKind(Skill, text, 0);
    TokensSpec(text, 0);
    TokensSorted(text, 0);
    TokensPermute(text, 0);
    assert Separates(CompareStarts, Tokens(text, 0));
    SortFixesSorted(CompareStarts, Tokens(text, 0));
    SortForgetsOrder(CompareStarts, Tokens(text, 0), both);
  }

  method CollectInlineTokenMatches(text: string) returns (matches: seq<Match>)
    ensures matches == Tokens(text, 0)
  {
    var mentions := MatchAll(Mention, text);
    var skills := MatchAll(Skill, text);
    SortedScansAreTokens(text);
    matches := Sort(CompareStarts, mentions + skills);
  }

  // Segments of a text without placeholders

  function TextRun<C>(text: string): seq<Segment<C>> {
    if text == [] then [] else [TextSegment(text)]
  }

  function TokenSegment<C>(m: Match): Segment<C> {
    if m.kind == Mention then MentionSegment(m.value) else SkillSegment(m.value)
  }

  /** Reference: one walk over the text; everything from `cursor` to `p` is pending text. */
  function SegmentsFrom<C>(text: string, cursor: nat, p: nat): seq<Segment<C>>
    requires cursor <= p <= |text|
    decreases |text| - p
  {
    if p == |text| then TextRun(text[cursor..])
    else match AnyTokenAt(text, p)
      case Some(m) => TextRun(text[cursor..p]) + [TokenSegment(m)] + SegmentsFrom(text, m.end, m.end)
      case None => SegmentsFrom(text, cursor, p + 1)
  }

  function TextSegments<C>(text: string): seq<Segment<C>> {
    SegmentsFrom(text, 0, 0)
  }

  method PushTextSegment<C>(segments: seq<Segment<C>>, text: string) returns (result: seq<Segment<C>>)
    ensures (segments == [] || !segments[|segments| - 1].TextSegment?) ==> result == segments + TextRun(text)
    ensures Print(result) == Print(segments) + text
  {
    if text == [] {
      assert segments + TextRun(text) == segments;
      return segments;
    }
    if segments != [] && segments[|segments| - 1].TextSegment? {
      var last := |segments| - 1;
      result := segments[last := TextSegment(segments[last].text + text)];
      assert segments == segments[..last] + [segments[last]];
      assert result == segments[..last] + [result[last]];
      FlatMapAppend(PrintSegment<C>, segments[..last], [segments[last]]);
      FlatMapAppend(PrintSegment<C>, segments[..last], [result[last]]);
      return;
    }
    FlatMapAppend(PrintSegment<C>, segments, [TextSegment(text)]);
    return segments + [TextSegment(text)];
  }

  lemma {:induction false} TokensAfter(text: string, p: nat, m: Match)
    requires p <= |text| && AnyTokenAt(text, p) == Some(m)
    ensures p < |text| && Tokens(text, p) == [m] + Tokens(text, m.end)
  {
    hide BodyAt;
    SkipTokens(m.kind, text, p, p + 1);
    SkipTokens(m.kind, text, p, m.end);
  }

  lemma {:induction false} SkipTokens(kind: Kind, text: string, s: nat, p: nat)
    requires TokenAt(kind, text, s).Some? && s < p <= TokenAt(kind, text, s).value.end + 1
    ensures Tokens(text, p) == Tokens(text, TokenAt(kind, text, s).value.end + 1)
    decreases TokenAt(kind, text, s).value.end + 1 - p
  {
    hide BodyAt;
    if p <= TokenAt(kind, text, s).value.end {
      NoTokenInside(kind, Mention, text, s, p);
      NoTokenInside(kind, Skill, text, s, p);
      SkipTokens(kind, text, s, p + 1);
    }
  }

  /** The walk from `p` jumps to the next token. */
  lemma {:induction false} SegmentsByTokens<C>(text: string, cursor: nat, p: nat)
    requires cursor <= p <= |text|
    ensures var ts := Tokens(text, p);
      if ts == [] then SegmentsFrom<C>(text, cursor, p) == TextRun(text[cursor..])
      else
        && p <= ts[0].start < ts[0].end < |text|
        && ts[1..] == Tokens(text, ts[0].end)
        && SegmentsFrom<C>(text, cursor, p)
           == TextRun(text[cursor..ts[0].start]) + [TokenSegment(ts[0])] + SegmentsFrom<C>(text, ts[0].end, ts[0].end)
    decreases |text| - p
  {
    if p < |text| {
      match AnyTokenAt(text, p) {
        case Some(m) => TokensAfter(text, p, m);
        case None =>
          assert Tokens(text, p) == Tokens(text, p + 1);
          SegmentsByTokens<C>(text, cursor, p + 1);
      }
    }
  }

  method SplitText<C>(text: string) returns (segments: seq<Segment<C>>)
    ensures segments == TextSegments<C>(text)
  {
    hide SegmentsFrom, Tokens;
    segments := [];
    if text == [] {
      SegmentsByTokens<C>(text, 0, 0);
      return;
    }
    var matches := CollectInlineTokenMatches(text);
    var cursor: nat := 0;
    for i := 0 to |matches|
      invariant cursor <= |text|
      invariant matches[i..] == Tokens(text, cursor)
      invariant segments == [] || !segments[|segments| - 1].TextSegment?
      invariant segments + SegmentsFrom<C>(text, cursor, cursor) == TextSegments<C>(text)
    {
      var m := matches[i];
      SegmentsByTokens<C>(text, cursor, cursor);
      assert matches[i..][0] == m && matches[i..][1..] == matches[i + 1..];
      // Tokens never overlap, so the program's `match.start < cursor` skip is never taken.
      if m.start >= cursor {
        ghost var before := segments;
        if m.start > cursor {
          segments := PushTextSegment(segments, text[cursor..m.start]);
        }
        assert segments == before + TextRun(text[cursor..m.start]);
        if m.kind == Mention {
          segments := segments + [MentionSegment(m.value)];
        } else {
          segments := segments + [SkillSegment(m.value)];
        }
        Regroup(before, TextRun(text[cursor..m.start]), [TokenSegment(m)], SegmentsFrom<C>(text, m.end, m.end));
        cursor := m.end;
      }
    }
    SegmentsByTokens<C>(text, cursor, cursor);
    if cursor < |text| {
      segments := PushTextSegment(segments, text[cursor..]);
    }
  }

  // Segments of a whole prompt

  /** Index of the first placeholder, or the length when there is none. */
  function FirstPlaceholder(prompt: string): (j: nat)
    ensures j <= |prompt| && (j < |prompt| ==> prompt[j] == PLACEHOLDER)
    ensures forall k | 0 <= k < j :: prompt[k] != PLACEHOLDER
  {
    if prompt == [] || prompt[0] == PLACEHOLDER then 0 else 1 + FirstPlaceholder(prompt[1..])
  }

  function ContextAt<C>(contexts: seq<C>, k: nat): Option<C> {
    if k < |contexts| then Some(contexts[k]) else None
  }

  /** Reference: split at the first placeholder; `k` placeholders came before. */
  function PromptSegmentsFrom<C>(prompt: string, contexts: seq<C>, k: nat): seq<Segment<C>>
    decreases |prompt|
  {
    var j := FirstPlaceholder(prompt);
    if j == |prompt| then TextSegments(prompt)
    else TextSegments(prompt[..j]) + [TerminalContextSegment(ContextAt(contexts, k))]
         + PromptSegmentsFrom(prompt[j + 1..], contexts, k + 1)
  }

  function PromptSegments<C>(prompt: string, contexts: seq<C>): seq<Segment<C>> {
    PromptSegmentsFrom(prompt, contexts, 0)
  }

  lemma FirstPlaceholderIs(prompt: string, j: nat)
    requires j <= |prompt| && (j < |prompt| ==> prompt[j] == PLACEHOLDER)
    requires forall k | 0 <= k < j :: prompt[k] != PLACEHOLDER
    ensures FirstPlaceholder(prompt) == j
  {}

  /** The program's scan from `cursor` has reached the placeholder at `index`. */
  lemma AtPlaceholder<C>(prompt: string, cursor: nat, index: nat, contexts: seq<C>, k: nat)
    requires cursor <= index < |prompt| && prompt[index] == PLACEHOLDER
    requires forall i | cursor <= i < index :: prompt[i] != PLACEHOLDER
    ensures PromptSegmentsFrom(prompt[cursor..], contexts, k)
         == TextSegments(prompt[cursor..index]) + [TerminalContextSegment(ContextAt(contexts, k))]
            + PromptSegmentsFrom(prompt[index + 1..], contexts, k + 1)
  {
    hide TextSegments, ContextAt;
    FirstPlaceholderIs(prompt[cursor..], index - cursor);
    assert prompt[cursor..][..index - cursor] == prompt[cursor..index];
    assert prompt[cursor..][index - cursor + 1..] == prompt[index + 1..];
  }

  method SplitPrompt<C>(prompt: string, terminalContexts: seq<C>) returns (segments: seq<Segment<C>>)
    ensures segments == PromptSegments(prompt, terminalContexts)
  {
    hide PromptSegmentsFrom, ContextAt, SegmentsFrom;
    segments := [];
    NoText<C>();
    if prompt == [] {
      LastText(prompt, 0, terminalContexts, 0);
      return;
    }
    var terminalContextIndex: nat := 0;
    var textCursor: nat := 0;
    assert prompt[0..] == prompt;
    for index := 0 to |prompt|
      invariant textCursor <= index
      invariant forall k | textCursor <= k < index :: prompt[k] != PLACEHOLDER
      invariant segments + PromptSegmentsFrom(prompt[textCursor..], terminalContexts, terminalContextIndex)
             == PromptSegments(prompt, terminalContexts)
    {
      if prompt[index] == PLACEHOLDER {
        AtPlaceholder(prompt, textCursor, index, terminalContexts, terminalContextIndex);
        ghost var before, inside := segments, TextSegments<C>(prompt[textCursor..index]);
        if index > textCursor {
          var inner := SplitText<C>(prompt[textCursor..index]);
          segments := segments + inner;
        } else {
          assert prompt[textCursor..index] == [];
        }
        var mark := [TerminalContextSegment(ContextAt(terminalContexts, terminalContextIndex))];
        segments := segments + mark;
        Regroup(before, inside, mark, PromptSegmentsFrom(prompt[index + 1..], terminalContexts, terminalContextIndex + 1));
        terminalContextIndex := terminalContextIndex + 1;
        textCursor := index + 1;
      }
    }
    LastText(prompt, textCursor, terminalContexts, terminalContextIndex);
    if textCursor < |prompt| {
      var inner := SplitText<C>(prompt[textCursor..]);
      segments := segments + inner;
    } else {
      assert prompt[textCursor..] == [];
    }
  }

  lemma NoText<C>()
    ensures TextSegments<C>([]) == []
  {}

  lemma LastText<C>(prompt: string, cursor: nat, contexts: seq<C>, k: nat)
    requires cursor <= |prompt| && forall i | cursor <= i < |prompt| :: prompt[i] != PLACEHOLDER
    ensures PromptSegmentsFrom(prompt[cursor..], contexts, k) == TextSegments(prompt[cursor..])
  {
    FirstPlaceholderIs(prompt[cursor..], |prompt| - cursor);
  }

  // What the segments promise

  /** The characters of the prompt that a segment stands for. */
  function PrintSegment<C>(s: Segment<C>): string {
    match s
    case TextSegment(text) => text
    case MentionSegment(path) => "@" + path
    case SkillSegment(name) => "$" + name
    case TerminalContextSegment(_) => [PLACEHOLDER]
  }

  function Print<C>(segments: seq<Segment<C>>): string {
    FlatMap(PrintSegment<C>, segments)
  }

  lemma PrintPieces<C>(run: string, m: Match, rest: seq<Segment<C>>)
    ensures Print(TextRun<C>(run) + [TokenSegment(m)] + rest) == run + ([Sigil(m.kind)] + m.value) + Print(rest)
  {
    FlatMapAppend(PrintSegment<C>, TextRun<C>(run), [TokenSegment(m)]);
    FlatMapAppend(PrintSegment<C>, TextRun<C>(run) + [TokenSegment(m)], rest);
    PrintRun<C>(run);
    FlatMapOne(PrintSegment<C>, TokenSegment<C>(m));
  }

  lemma PrintRun<C>(run: string)
    ensures Print(TextRun<C>(run)) == run
  {
    FlatMapOne(PrintSegment<C>, TextSegment(run));
  }

  lemma {:induction false} SegmentsFromPrint<C>(text: string, cursor: nat, p: nat)
    requires cursor <= p <= |text|
    ensures Print(SegmentsFrom<C>(text, cursor, p)) == text[cursor..]
    decreases |text| - p
  {
    hide BodyAt, Print, TextRun, TokenSegment, Boundary, Sigil;
    if p == |text| {
      PrintRun<C>(text[cursor..]);
    } else {
      match AnyTokenAt(text, p) {
        case Some(m) =>
          SegmentsFromPrint<C>(text, m.end, m.end);
          PrintPieces<C>(text[cursor..p], m, SegmentsFrom<C>(text, m.end, m.end));
          assert text[p..m.end] == [Sigil(m.kind)] + m.value;
          assert text[cursor..] == text[cursor..p] + text[p..m.end] + text[m.end..];
        case None => SegmentsFromPrint<C>(text, cursor, p + 1);
      }
    }
  }

  lemma {:induction false} PromptSegmentsFromPrint<C>(prompt: string, contexts: seq<C>, k: nat)
    ensures Print(PromptSegmentsFrom(prompt, contexts, k)) == prompt
    decreases |prompt|
  {
    hide PrintSegment, SegmentsFrom, ContextAt;
    var j := FirstPlaceholder(prompt);
    SegmentsFromPrint<C>(prompt[..j], 0, 0);
    assert prompt[..j][0..] == prompt[..j];
    if j == |prompt| {
      assert prompt[..j] == prompt;
    } else {
      var head, rest := TextSegments<C>(prompt[..j]), PromptSegmentsFrom(prompt[j + 1..], contexts, k + 1);
      var mark := TerminalContextSegment(ContextAt(contexts, k));
      PromptSegmentsFromPrint(prompt[j + 1..], contexts, k + 1);
      FlatMapAppend(PrintSegment<C>, head, [mark]);
      FlatMapAppend(PrintSegment<C>, head + [mark], rest);
      PrintMark(mark);
      assert prompt == prompt[..j] + [PLACEHOLDER] + prompt[j + 1..];
    }
  }

  lemma PrintMark<C>(mark: Segment<C>)
    requires mark.TerminalContextSegment?
    ensures Print([mark]) == [PLACEHOLDER]
  {
    FlatMapOne(PrintSegment<C>, mark);
  }

  /** Splitting loses nothing: the segments print back to the prompt, whatever the contexts. */
  lemma SplitIsLossless<C>(prompt: string, contexts: seq<C>)
    ensures Print(PromptSegments(prompt, contexts)) == prompt
  {
    PromptSegmentsFromPrint(prompt, contexts, 0);
  }

  /** No empty text segment, no two text segments side by side, no empty token. */
  ghost predicate Canonical<C>(segments: seq<Segment<C>>) {
    && (forall i | 0 <= i < |segments| :: PrintSegment(segments[i]) != [])
    && (forall i | 0 < i < |segments| :: !(segments[i - 1].TextSegment? && segments[i].TextSegment?))
    && (forall i | 0 <= i < |segments| :: segments[i].MentionSegment? ==> segments[i].path != [])
    && (forall i | 0 <= i < |segments| :: segments[i].SkillSegment? ==> segments[i].name != [])
  }

  lemma CanonicalPieces<C>(run: string, m: Match, rest: seq<Segment<C>>)
    requires Canonical(rest) && m.value != []
    ensures Canonical(TextRun<C>(run) + [TokenSegment(m)] + rest)
  {
    var head := TextRun<C>(run) + [TokenSegment(m)];
    assert forall i | 0 <= i < |rest| :: (head + rest)[|head| + i] == rest[i];
  }

  lemma {:induction false} SegmentsFromCanonical<C>(text: string, cursor: nat, p: nat)
    requires cursor <= p <= |text|
    ensures Canonical(SegmentsFrom<C>(text, cursor, p))
    ensures forall s :: s in SegmentsFrom<C>(text, cursor, p) ==> !s.TerminalContextSegment?
    decreases |text| - p
  {
    hide BodyAt, Boundary, Canonical;
    if p == |text| {
      RunIsCanonical<C>(text[cursor..]);
    } else {
      match AnyTokenAt(text, p) {
        case Some(m) =>
          SegmentsFromCanonical<C>(text, m.end, m.end);
          assert m.value != [];
          CanonicalPieces<C>(text[cursor..p], m, SegmentsFrom<C>(text, m.end, m.end));
        case None => SegmentsFromCanonical<C>(text, cursor, p + 1);
      }
    }
  }

  lemma RunIsCanonical<C>(run: string)
    ensures Canonical(TextRun<C>(run))
  {}

  lemma CanonicalAroundMark<C>(head: seq<Segment<C>>, mark: Segment<C>, rest: seq<Segment<C>>)
    requires Canonical(head) && Canonical(rest) && mark.TerminalContextSegment?
    ensures Canonical(head + [mark] + rest)
  {
    var all := head + [mark] + rest;
    assert forall i | 0 <= i < |rest| :: all[|head| + 1 + i] == rest[i];
    assert forall i | 0 <= i < |head| :: all[i] == head[i];
  }

  /** The contexts carried by the placeholder segments, in order. */
  function CarriedContexts<C>(segments: seq<Segment<C>>): seq<Option<C>> {
    FlatMap(CarriedContext<C>, segments)
  }

  function CarriedContext<C>(s: Segment<C>): seq<Option<C>> {
    if s.TerminalContextSegment? then [s.context] else []
  }

  function CountPlaceholders(prompt: string): nat {
    if prompt == [] then 0 else (if prompt[0] == PLACEHOLDER then 1 else 0) + CountPlaceholders(prompt[1..])
  }

  lemma {:induction false} CarriesNothing<C>(segments: seq<Segment<C>>)
    requires forall s :: s in segments ==> !s.TerminalContextSegment?
    ensures CarriedContexts(segments) == []
  {
    if segments != [] {
      assert forall s :: s in segments[1..] ==> s in segments;
      CarriesNothing(segments[1..]);
    }
  }

  lemma {:induction false} CountSkips(prompt: string, j: nat)
    requires j <= |prompt| && forall i | 0 <= i < j :: prompt[i] != PLACEHOLDER
    ensures CountPlaceholders(prompt) == CountPlaceholders(prompt[j..])
  {
    if j > 0 {
      forall i | 0 <= i < j - 1 ensures prompt[1..][i] != PLACEHOLDER { assert prompt[1..][i] == prompt[i + 1]; }
      CountSkips(prompt[1..], j - 1);
      assert prompt[1..][j - 1..] == prompt[j..];
    }
  }

  ghost function ContextsFrom<C>(contexts: seq<C>, k: nat, n: nat): seq<Option<C>> {
    seq(n, i requires 0 <= i => ContextAt(contexts, k + i))
  }

  lemma {:induction false} PromptSegmentsFromCanonical<C>(prompt: string, contexts: seq<C>, k: nat)
    ensures Canonical(PromptSegmentsFrom(prompt, contexts, k))
    decreases |prompt|
  {
    hide Canonical, ContextAt, SegmentsFrom;
    var j := FirstPlaceholder(prompt);
    SegmentsFromCanonical<C>(prompt[..j], 0, 0);
    if j == |prompt| {
      assert prompt[..j] == prompt;
    } else {
      PromptSegmentsFromCanonical(prompt[j + 1..], contexts, k + 1);
      CanonicalAroundMark(TextSegments<C>(prompt[..j]), TerminalContextSegment(ContextAt(contexts, k)),
                          PromptSegmentsFrom(prompt[j + 1..], contexts, k + 1));
    }
  }

  lemma CountAtMark(prompt: string, j: nat)
    requires j < |prompt| && prompt[j] == PLACEHOLDER && forall i | 0 <= i < j :: prompt[i] != PLACEHOLDER
    ensures CountPlaceholders(prompt) == 1 + CountPlaceholders(prompt[j + 1..])
  {
    CountSkips(prompt, j);
    assert prompt[j..][1..] == prompt[j + 1..];
  }

  lemma {:induction false} PromptSegmentsFromCarry<C>(prompt: string, contexts: seq<C>, k: nat)
    ensures CarriedContexts(PromptSegmentsFrom(prompt, contexts, k)) == ContextsFrom(contexts, k, CountPlaceholders(prompt))
    decreases |prompt|
  {
    hide CarriedContext, CarriedContexts, SegmentsFrom, ContextAt, Canonical, CountPlaceholders, ContextsFrom;
    var j := FirstPlaceholder(prompt);
    var head := TextSegments<C>(prompt[..j]);
    SegmentsFromCanonical<C>(prompt[..j], 0, 0);
    CarriesNothing(head);
    if j == |prompt| {
      assert prompt[..j] == prompt;
      NoPlaceholders(prompt);
      ContextsStep(contexts, k, 0);
    } else {
      var rest := PromptSegmentsFrom(prompt[j + 1..], contexts, k + 1);
      var mark := TerminalContextSegment(ContextAt(contexts, k));
      PromptSegmentsFromCarry(prompt[j + 1..], contexts, k + 1);
      CarriedAround(head, mark, rest);
      CountAtMark(prompt, j);
      ContextsStep(contexts, k, CountPlaceholders(prompt[j + 1..]));
    }
  }

  lemma NoPlaceholders(prompt: string)
    requires forall i | 0 <= i < |prompt| :: prompt[i] != PLACEHOLDER
    ensures CountPlaceholders(prompt) == 0
  {
    CountSkips(prompt, |prompt|);
  }

  lemma ContextsStep<C>(contexts: seq<C>, k: nat, n: nat)
    ensures ContextsFrom(contexts, k, 0) == []
    ensures ContextsFrom(contexts, k, n + 1) == [ContextAt(contexts, k)] + ContextsFrom(contexts, k + 1, n)
  {}

  lemma CarriedAround<C>(head: seq<Segment<C>>, mark: Segment<C>, rest: seq<Segment<C>>)
    requires mark.TerminalContextSegment? && CarriedContexts(head) == []
    ensures CarriedContexts(head + [mark] + rest) == [mark.context] + CarriedContexts(rest)
  {
    FlatMapAppend(CarriedContext<C>, head, [mark]);
    FlatMapAppend(CarriedContext<C>, head + [mark], rest);
    FlatMapOne(CarriedContext<C>, mark);
  }

  /** The segments are canonical, and the k-th placeholder carries the k-th context or none. */
  lemma SplitIsCanonical<C>(prompt: string, contexts: seq<C>)
    ensures Canonical(PromptSegments(prompt, contexts))
    ensures |CarriedContexts(PromptSegments(prompt, contexts))| == CountPlaceholders(prompt)
    ensures forall k | 0 <= k < CountPlaceholders(prompt) ::
      CarriedContexts(PromptSegments(prompt, contexts))[k] == ContextAt(contexts, k)
  {
    PromptSegmentsFromCanonical(prompt, contexts, 0);
    PromptSegmentsFromCarry(prompt, contexts, 0);
  }
}
