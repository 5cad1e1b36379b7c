/** Links found in a line of terminal text (`apps/web/src/terminal-links.ts`). What the two patterns
    match is given; what is kept of the matches is modelled. */
module TerminalLinkMatches {
  import opened Text
  import opened Sorting

  datatype Kind = Url | Path

  datatype Match = Match(kind: Kind, text: string, start: nat, end: nat)

  /** A raw match of a pattern. */
  datatype Raw = Raw(index: nat, text: string)

  predicate MatchesLine(line: string, raw: Raw) {
    raw.index + |raw.text| <= |line| && line[raw.index..raw.index + |raw.text|] == raw.text
  }

  // Trimming

  predicate IsTrailingPunctuation(c: char) {
    c in ".,;!?"
  }

  function WithoutPunctuation(s: string): (r: string)
    ensures r <= s
  {
    if s != [] && IsTrailingPunctuation(s[|s| - 1]) then WithoutPunctuation(s[..|s| - 1]) else s
  }

  function Count(s: string, c: char): nat {
    if s == [] then 0 else Count(s[..|s| - 1], c) + if s[|s| - 1] == c then 1 else 0
  }

  /** `trimUnbalanced`: closing characters go from the end while there are more of them than of the
      opening ones. */
  function WithoutUnbalanced(s: string, open: char, close: char): (r: string)
    ensures r <= s
  {
    if s != [] && s[|s| - 1] == close && Count(s, open) < Count(s, close) then WithoutUnbalanced(s[..|s| - 1], open, close)
    else s
  }

  /** `trimClosingDelimiters` */
  function TrimClosing(s: string): (r: string)
    ensures r <= s
  {
    WithoutUnbalanced(WithoutUnbalanced(WithoutUnbalanced(WithoutPunctuation(s), '(', ')'), '[', ']'), '{', '}')
  }

  method TrimUnbalanced(value: string, open: char, close: char) returns (output: string)
    ensures output == WithoutUnbalanced(value, open, close)
  {
    output := value;
    while output != [] && output[|output| - 1] == close
      invariant WithoutUnbalanced(output, open, close) == WithoutUnbalanced(value, open, close)
      decreases |output|
    {
      if Count(output, open) >= Count(output, close) {
        return;
      }
      output := output[..|output| - 1];
    }
  }

  /** What is cut off the end are closing characters without an opening partner: the rest has at least
      as many opening as closing ones, or ends in something else. */
  lemma {:induction false} BalancedOrOpen(s: string, open: char, close: char)
    ensures var r := WithoutUnbalanced(s, open, close);
            && (r == [] || r[|r| - 1] != close || Count(r, open) >= Count(r, close))
            && (forall i | |r| <= i < |s| :: s[i] == close)
            && (|r| < |s| ==> Count(r + [close], open) < Count(r + [close], close))
  {
    if s != [] && s[|s| - 1] == close && Count(s, open) < Count(s, close) {
      BalancedOrOpen(s[..|s| - 1], open, close);
    }
  }

  // Collecting

  predicate Overlaps(a: Match, b: Match) {
    a.start < b.end && b.start < a.end
  }

  predicate StartsWithHttp(s: string) {
    && |s| >= 7 && s[0] in "hH" && s[1] in "tT" && s[2] in "tT" && s[3] in "pP"
    && (s[4..7] == "://" || (|s| >= 8 && s[4] in "sS" && s[5..8] == "://"))
  }

  function CandidateOf(kind: Kind, raw: Raw): Option<Match> {
    var trimmed := TrimClosing(raw.text);
    if raw.text == "" || trimmed == "" then None
    else if kind == Path && StartsWithHttp(trimmed) then None
    else Some(Match(kind, trimmed, raw.index, raw.index + |trimmed|))
  }

  /** Every match stands in the line where it says. */
  predicate InLine(line: string, m: Match) {
    m.start < m.end <= |line| && line[m.start..m.end] == m.text
  }

  predicate Disjoint(matches: seq<Match>) {
    forall i, j | 0 <= i < j < |matches| :: !Overlaps(matches[i], matches[j])
  }

  predicate Collides(m: Match, others: seq<Match>) {
    exists i :: 0 <= i < |others| && Overlaps(m, others[i])
  }

  predicate AllInLine(line: string, matches: seq<Match>) {
    forall i | 0 <= i < |matches| :: InLine(line, matches[i])
  }

  lemma CandidateInLine(line: string, kind: Kind, raw: Raw)
    requires MatchesLine(line, raw) && CandidateOf(kind, raw).Some?
    ensures InLine(line, CandidateOf(kind, raw).value)
  {
    hide TrimClosing, StartsWithHttp;
    var trimmed := TrimClosing(raw.text);
    assert line[raw.index..raw.index + |trimmed|] == raw.text[..|trimmed|];
  }

  lemma DisjointPush(all: seq<Match>, m: Match)
    requires Disjoint(all) && !Collides(m, all)
    ensures Disjoint(all + [m])
  {
    forall i | 0 <= i < |all| ensures !Overlaps(all[i], m) {
      assert !Overlaps(m, all[i]);
    }
  }

  /** The candidates that collide neither with `existing` ones nor with one kept before them, in order. */
  function Kept(kind: Kind, raws: seq<Raw>, existing: seq<Match>): seq<Match> {
    if raws == [] then []
    else
      var before := Kept(kind, raws[..|raws| - 1], existing);
      var candidate := CandidateOf(kind, raws[|raws| - 1]);
      if candidate.None? || Collides(candidate.value, existing + before) then before else before + [candidate.value]
  }

  lemma KeptNone(kind: Kind, existing: seq<Match>)
    ensures Kept(kind, [], existing) == []
  {}

  lemma KeptNext(kind: Kind, raws: seq<Raw>, k: nat, existing: seq<Match>)
    requires k < |raws|
    ensures var before, candidate := Kept(kind, raws[..k], existing), CandidateOf(kind, raws[k]);
      Kept(kind, raws[..k + 1], existing) ==
        if candidate.None? || Collides(candidate.value, existing + before) then before else before + [candidate.value]
  {
    hide CandidateOf, Collides;
    assert raws[..k + 1][..k] == raws[..k];
  }

  lemma CandidateKind(kind: Kind, raw: Raw)
    ensures CandidateOf(kind, raw).Some? ==> CandidateOf(kind, raw).value.kind == kind
  {
    hide TrimClosing, StartsWithHttp;
  }

  /** `collectMatches`: a match is kept unless it collides with one kept before it. */
  method CollectMatches(line: string, kind: Kind, raws: seq<Raw>, existing: seq<Match>) returns (matches: seq<Match>)
    requires forall i | 0 <= i < |raws| :: MatchesLine(line, raws[i])
    requires Disjoint(existing)
    ensures matches == Kept(kind, raws, existing)
    ensures Disjoint(existing + matches) && AllInLine(line, matches)
    ensures forall i | 0 <= i < |matches| :: matches[i].kind == kind
    ensures forall i | 0 <= i < |raws| && CandidateOf(kind, raws[i]).Some? ::
              CandidateOf(kind, raws[i]).value in matches || Collides(CandidateOf(kind, raws[i]).value, existing + matches)
    ensures forall m | m in matches :: exists i :: 0 <= i < |raws| && CandidateOf(kind, raws[i]) == Some(m)
  {
    hide CandidateOf, Collides, Disjoint, InLine, Kept, MatchesLine, Overlaps;
    matches := [];
    assert existing + matches == existing;
    KeptNone(kind, existing);
    assert raws[..0] == [];
    var k := 0;
    while k < |raws|
      invariant 0 <= k <= |raws| && matches == Kept(kind, raws[..k], existing)
      invariant Disjoint(existing + matches) && AllInLine(line, matches)
      invariant forall i | 0 <= i < |matches| :: matches[i].kind == kind
      invariant forall i | 0 <= i < k && CandidateOf(kind, raws[i]).Some? ::
          CandidateOf(kind, raws[i]).value in matches || Collides(CandidateOf(kind, raws[i]).value, existing + matches)
      invariant forall m | m in matches :: exists i :: 0 <= i < k && CandidateOf(kind, raws[i]) == Some(m)
    {
      var candidate := CandidateOf(kind, raws[k]);
      KeptNext(kind, raws, k, existing);
      k := k + 1;
      if candidate.None? || Collides(candidate.value, existing + matches) {
        continue;
      }
      CandidateInLine(line, kind, raws[k - 1]);
      DisjointPush(existing + matches, candidate.value);
      CollidesMore(existing, matches, candidate.value);
      assert existing + matches + [candidate.value] == existing + (matches + [candidate.value]);
      CandidateKind(kind, raws[k - 1]);
      matches := matches + [candidate.value];
    }
    assert raws[..k] == raws;
  }

  lemma CollidesMore(existing: seq<Match>, matches: seq<Match>, m: Match)
    ensures forall x | Collides(x, existing + matches) :: Collides(x, existing + (matches + [m]))
  {
    hide Overlaps;
    var a, b := existing + matches, existing + (matches + [m]);
    forall x | Collides(x, a) ensures Collides(x, b) {
      var i :| 0 <= i < |a| && Overlaps(x, a[i]);
      assert b[i] == a[i];
    }
  }

  function ByStart(): (Match, Match) -> int {
    (a: Match, b: Match) => a.start - b.start
  }

  /** `extractTerminalLinks`: the links are all that is kept of the web addresses, and of the paths beside
      them; they come in the order of the line, do not overlap, and each stands where it says. */
  method ExtractTerminalLinks(line: string, urls: seq<Raw>, paths: seq<Raw>) returns (links: seq<Match>)
    requires forall i | 0 <= i < |urls| :: MatchesLine(line, urls[i])
    requires forall i | 0 <= i < |paths| :: MatchesLine(line, paths[i])
    ensures var fromUrls := Kept(Url, urls, []); multiset(links) == multiset(fromUrls + Kept(Path, paths, fromUrls))
    ensures AllInLine(line, links)
    ensures forall i, j | 0 <= i < j < |links| :: links[i].end <= links[j].start
  {
    hide MatchesLine, CandidateOf, Collides;
    var urlMatches := CollectMatches(line, Url, urls, []);
    assert [] + urlMatches == urlMatches;
    var pathMatches := CollectMatches(line, Path, paths, urlMatches);
    links := Sort(ByStart(), urlMatches + pathMatches);
    SortedLinks(line, urlMatches + pathMatches);
    SortPermutes(ByStart(), urlMatches + pathMatches);
  }

  predicate Apart(m: Match, s: seq<Match>) {
    forall i | 0 <= i < |s| :: !Overlaps(m, s[i]) && !Overlaps(s[i], m)
  }

  lemma {:induction false} InsertApart(y: Match, x: Match, s: seq<Match>)
    requires Apart(y, s) && Apart(y, [x])
    ensures Apart(y, Insert(ByStart(), x, s))
  {
    hide Overlaps;
    assert !Overlaps(y, [x][0]) && !Overlaps([x][0], y);
    if s != [] && ByStart()(x, s[0]) > 0 {
      InsertApart(y, x, s[1..]);
    }
  }

  lemma {:induction false} InsertDisjoint(x: Match, s: seq<Match>)
    requires Disjoint(s) && Apart(x, s)
    ensures Disjoint(Insert(ByStart(), x, s))
  {
    hide Overlaps;
    if s != [] && ByStart()(x, s[0]) > 0 {
      assert Apart(s[0], s[1..]) by { ApartInDisjoint(s, 0); }
      InsertApart(s[0], x, s[1..]);
      InsertDisjoint(x, s[1..]);
    }
  }

  lemma ApartInDisjoint(s: seq<Match>, i: nat)
    requires i < |s| && Disjoint(s)
    ensures Apart(s[i], s[i + 1..])
  {}

  lemma {:induction false} SortApart(y: Match, s: seq<Match>)
    requires Apart(y, s)
    ensures Apart(y, Sort(ByStart(), s))
  {
    hide Overlaps;
    if s != [] {
      SortApart(y, s[1..]);
      InsertApart(y, s[0], Sort(ByStart(), s[1..]));
    }
  }

  lemma {:induction false} SortDisjoint(s: seq<Match>)
    requires Disjoint(s)
    ensures Disjoint(Sort(ByStart(), s))
  {
    hide Overlaps;
    if s != [] {
      SortDisjoint(s[1..]);
      ApartInDisjoint(s, 0);
      SortApart(s[0], s[1..]);
      InsertDisjoint(s[0], Sort(ByStart(), s[1..]));
    }
  }

  lemma SortedLinks(line: string, s: seq<Match>)
    requires AllInLine(line, s) && Disjoint(s)
    ensures var t := Sort(ByStart(), s);
            AllInLine(line, t) && forall i, j | 0 <= i < j < |t| :: t[i].end <= t[j].start
  {
    hide Sort;
    var t := Sort(ByStart(), s);
    SortDisjoint(s);
    SortSorts(ByStart(), s);
    SortPermutes(ByStart(), s);
    forall i | 0 <= i < |t| ensures InLine(line, t[i]) {
      assert t[i] in s;
    }
    forall i, j | 0 <= i < j < |t| ensures t[i].end <= t[j].start {
      assert ByStart()(t[i], t[j]) <= 0 && InLine(line, t[j]) && !Overlaps(t[i], t[j]);
    }
  }

  // Path and position

  datatype PathPosition = PathPosition(path: string, line: Option<string>, column: Option<string>)

  function DigitsAtEnd(s: string): (n: nat)
    ensures n <= |s|
  {
    if s != [] && IsDigit(s[|s| - 1]) then 1 + DigitsAtEnd(s[..|s| - 1]) else 0
  }

  /** `/:(\d+)$/`: the number at the end, when a colon stands before it. */
  function NumberAtEnd(s: string): (r: Option<string>)
    ensures r.Some? ==> |s| > |r.value| > 0 && s == s[..|s| - |r.value| - 1] + ":" + r.value
  {
    var n := DigitsAtEnd(s);
    if n > 0 && n < |s| && s[|s| - n - 1] == ':' then
      assert s == s[..|s| - n - 1] + ":" + s[|s| - n..];
      Some(s[|s| - n..])
    else None
  }

  /** `splitPathAndPosition`: the one or two numbers at the end, and the path before them. Joined again
      they give the text back, and a column comes only with a line. */
  function SplitPathAndPosition(value: string): (r: PathPosition)
    ensures value == r.path + (if r.line.Some? then ":" + r.line.value else "")
                     + (if r.column.Some? then ":" + r.column.value else "")
    ensures r.column.Some? ==> r.line.Some?
    ensures r.line.None? <==> NumberAtEnd(value).None?
    ensures r.line.Some? && r.column.None? ==> NumberAtEnd(r.path).None?
  {
    match NumberAtEnd(value)
    case None => PathPosition(value, None, None)
    case Some(last) =>
      var path := value[..|value| - |last| - 1];
      match NumberAtEnd(path)
      case None => PathPosition(path, Some(last), None)
      case Some(line) => PathPosition(path[..|path| - |line| - 1], Some(line), Some(last))
  }

  // What the parts stand for

  /** Punctuation goes from the end, all of it and nothing else. */
  lemma {:induction false} PunctuationGoes(s: string)
    ensures var r := WithoutPunctuation(s);
      && (r == [] || r[|r| - 1] !in {'.', ',', ';', '!', '?'})
      && (forall i | |r| <= i < |s| :: s[i] in {'.', ',', ';', '!', '?'})
  {
    if s != [] && IsTrailingPunctuation(s[|s| - 1]) { PunctuationGoes(s[..|s| - 1]); }
  }

  function LowerLetter(c: char): char {
    if 'A' <= c <= 'Z' then 'a' + (c - 'A') else c
  }

  /** The text starts with the scheme, in letters of either case. */
  predicate HasScheme(s: string, scheme: string) {
    |scheme| <= |s| && forall i | 0 <= i < |scheme| :: LowerLetter(s[i]) == scheme[i]
  }

  /** A match is a candidate exactly when something is left of it, and a path only when that is not a
      web address; it stands where the match does. */
  lemma CandidateIs(kind: Kind, raw: Raw)
    ensures var c, text := CandidateOf(kind, raw), TrimClosing(raw.text);
      && (c.Some? <==> text != "" && (kind == Path ==> !HasScheme(text, "http://") && !HasScheme(text, "https://")))
      && (c.Some? ==> c.value == Match(kind, text, raw.index, raw.index + |text|))
  {
    hide TrimClosing;
    SchemeIs(TrimClosing(raw.text));
  }

  lemma SchemeIs(s: string)
    ensures StartsWithHttp(s) <==> HasScheme(s, "http://") || HasScheme(s, "https://")
  {
    if |s| >= 7 {
      HeadIs(s);
      assert s[4..7] == "://" <==> s[4] == ':' && s[5] == '/' && s[6] == '/';
      assert HasScheme(s, "http://") <==> HasScheme(s, "http") && s[4] == ':' && s[5] == '/' && s[6] == '/' by {
        var scheme := "http://";
        assert scheme[4] == ':' && scheme[5] == '/' && scheme[6] == '/' && scheme[..4] == "http";
      }
      if |s| >= 8 {
        assert s[5..8] == "://" <==> s[5] == ':' && s[6] == '/' && s[7] == '/';
        assert HasScheme(s, "https://") <==> HasScheme(s, "http") && LowerLetter(s[4]) == 's' && s[5] == ':' && s[6] == '/' && s[7] == '/' by {
          var scheme := "https://";
          assert scheme[4] == 's' && scheme[5] == ':' && scheme[6] == '/' && scheme[7] == '/' && scheme[..4] == "http";
        }
      }
    }
  }

  lemma HeadIs(s: string)
    requires |s| >= 4
    ensures HasScheme(s, "http") <==> s[0] in "hH" && s[1] in "tT" && s[2] in "tT" && s[3] in "pP"
  {
    var scheme := "http";
    assert scheme[0] == 'h' && scheme[1] == 't' && scheme[2] == 't' && scheme[3] == 'p';
  }

  lemma {:induction false} DigitsAre(p: string, digits: string)
    requires AllDigits(digits) && (p == [] || !IsDigit(p[|p| - 1]))
    ensures DigitsAtEnd(p + digits) == |digits|
    decreases |digits|
  {
    if digits == [] {
      assert p + digits == p;
    } else {
      var n := |digits| - 1;
      DigitsAre(p, digits[..n]);
      assert (p + digits)[..|p| + n] == p + digits[..n];
    }
  }

  /** A number is read at the end exactly when it stands there behind a colon. */
  lemma NumberIsRead(p: string, digits: string)
    requires digits != [] && AllDigits(digits)
    ensures NumberAtEnd(p + ":" + digits) == Some(digits)
  {
    var s := p + ":" + digits;
    DigitsAre(p + ":", digits);
    assert s[|s| - |digits|..] == digits && s[|s| - |digits| - 1] == ':';
  }

  /** A path with a line and a column is split into the three. With a line alone the path is what
      precedes it, unless that ends in a number too. */
  lemma PositionIsRead(path: string, line: string, column: string)
    requires line != [] && AllDigits(line) && column != [] && AllDigits(column)
    ensures SplitPathAndPosition(path + ":" + line + ":" + column) == PathPosition(path, Some(line), Some(column))
    ensures NumberAtEnd(path).None? ==> SplitPathAndPosition(path + ":" + line) == PathPosition(path, Some(line), None)
  {
    hide NumberAtEnd;
    var front := path + ":" + line;
    NumberIsRead(front, column);
    NumberIsRead(path, line);
    var all := front + ":" + column;
    assert all[..|all| - |column| - 1] == front && front[..|front| - |line| - 1] == path;
  }

  lemma {:induction false} CountIs(s: string, c: char)
    ensures Count(s, c) == multiset(s)[c]
  {
    if s != [] {
      CountIs(s[..|s| - 1], c);
      assert s == s[..|s| - 1] + [s[|s| - 1]];
    }
  }

  /** `rest` is what is left of `s` when closing characters without a partner are cut off its end. */
  predicate CutUnbalanced(s: string, rest: string, open: char, close: char) {
    && rest <= s && (forall i | |rest| <= i < |s| :: s[i] == close)
    && (rest == [] || rest[|rest| - 1] != close || multiset(rest)[open] >= multiset(rest)[close])
    && (|rest| < |s| ==> multiset(rest + [close])[open] < multiset(rest + [close])[close])
  }

  lemma UnbalancedIsCut(s: string, open: char, close: char)
    ensures CutUnbalanced(s, WithoutUnbalanced(s, open, close), open, close)
  {
    var r := WithoutUnbalanced(s, open, close);
    BalancedOrOpen(s, open, close);
    CountIs(r, open);
    CountIs(r, close);
    CountIs(r + [close], open);
    CountIs(r + [close], close);
  }

  /** A match is trimmed from its end: first of punctuation, then of unbalanced round, square and curly
      brackets, in this order. */
  lemma TrimmedInStages(s: string) returns (text: string, round: string, square: string)
    ensures text <= s && (text == [] || text[|text| - 1] !in {'.', ',', ';', '!', '?'})
    ensures forall i | |text| <= i < |s| :: s[i] in {'.', ',', ';', '!', '?'}
    ensures CutUnbalanced(text, round, '(', ')') && CutUnbalanced(round, square, '[', ']')
    ensures CutUnbalanced(square, TrimClosing(s), '{', '}')
  {
    hide WithoutUnbalanced, WithoutPunctuation, CutUnbalanced;
    PunctuationGoes(s);
    text := WithoutPunctuation(s);
    round := WithoutUnbalanced(text, '(', ')');
    square := WithoutUnbalanced(round, '[', ']');
    UnbalancedIsCut(text, '(', ')');
    UnbalancedIsCut(round, '[', ']');
    UnbalancedIsCut(square, '{', '}');
  }

  /** Two matches overlap exactly when some character of the line is in both. */
  lemma OverlapIsShared(a: Match, b: Match)
    requires a.start < a.end && b.start < b.end
    ensures Overlaps(a, b) <==> exists p :: InMatch(p, a) && InMatch(p, b)
  {
    if Overlaps(a, b) {
      var p := if a.start <= b.start then b.start else a.start;
      assert InMatch(p, a) && InMatch(p, b);
    }
  }

  predicate InMatch(p: int, m: Match) {
    m.start <= p < m.end
  }
}
