/** Reading release tags and resolving the previous one (`scripts/resolve-previous-release-tag.ts`). */
module ReleaseTags {
  import opened Text
  import opened Sorting
  import opened ReleaseVersions

  datatype Channel = StableChannel | NightlyChannel

  datatype Resolution = Resolved(tag: Option<string>) | InvalidTag

  // Tags

  /** Length of the longest run of characters at the front that satisfy `p`. */
  function Span(p: char -> bool, s: string): (n: nat)
    ensures n <= |s|
  {
    if s != [] && p(s[0]) then 1 + Span(p, s[1..]) else 0
  }

  predicate IsIdentifierChar(c: char) {
    IsDigit(c) || IsLetter(c) || c == '.' || c == '-'
  }

  lemma {:induction false} SpanIs(p: char -> bool, s: string)
    ensures forall i | 0 <= i < Span(p, s) :: p(s[i])
    ensures Span(p, s) < |s| ==> !p(s[Span(p, s)])
  {
    if s != [] && p(s[0]) { SpanIs(p, s[1..]); }
  }

  lemma SpanUpTo(p: char -> bool, a: string, b: string)
    requires forall i | 0 <= i < |a| :: p(a[i])
    requires b == [] || !p(b[0])
    ensures Span(p, a + b) == |a|
  {
    SpanIs(p, a + b);
    var n := Span(p, a + b);
    assert forall i | 0 <= i < |a| :: (a + b)[i] == a[i];
    if b != [] { assert (a + b)[|a|] == b[0]; }
  }

  /** `\d+` at the front, and what follows it. */
  function ReadNumber(s: string): Option<(nat, string)> {
    var n := Span(IsDigit, s);
    if n == 0 then None
    else
      SpanIs(IsDigit, s);
      Some((NatValue(s[..n]), s[n..]))
  }

  function ReadText(s: string, text: string): Option<string> {
    if text <= s then Some(s[|text|..]) else None
  }

  datatype Core = Core(major: nat, minor: nat, patch: nat, rest: string)

  /** `v(\d+)\.(\d+)\.(\d+)` */
  function ReadCore(tag: string): Option<Core> {
    match ReadText(tag, "v")
    case None => None
    case Some(s0) =>
      match ReadNumber(s0)
      case None => None
      case Some(major) =>
        match ReadText(major.1, ".")
        case None => None
        case Some(s1) =>
          match ReadNumber(s1)
          case None => None
          case Some(minor) =>
            match ReadText(minor.1, ".")
            case None => None
            case Some(s2) =>
              match ReadNumber(s2)
              case None => None
              case Some(patch) => Some(Core(major.0, minor.0, patch.0, patch.1))
  }

  /** `s.split(".")` */
  function SplitDots(s: string): (r: seq<string>)
    ensures r != []
  {
    if s == [] then [""]
    else
      var rest := SplitDots(s[1..]);
      if s[0] == '.' then [""] + rest else [[s[0]] + rest[0]] + rest[1..]
  }

  /** The build part: nothing, or `+` and identifier characters to the end. */
  predicate IsBuild(s: string) {
    s == [] || (s[0] == '+' && |s| > 1 && Span(IsIdentifierChar, s[1..]) == |s| - 1)
  }

  /** The prerelease part and the build part after it; None when the tag does not match. */
  function ReadPrerelease(s: string): Option<seq<string>> {
    if s != [] && s[0] == '-' && Span(IsIdentifierChar, s[1..]) > 0 then
      var n := Span(IsIdentifierChar, s[1..]);
      if IsBuild(s[1 + n..]) then Some(SplitDots(s[1..1 + n])) else None
    else if IsBuild(s) then Some([]) else None
  }

  /** `parseStableTag` */
  function ParseStableTag(tag: string): Option<Stable> {
    match ReadCore(tag)
    case None => None
    case Some(core) =>
      match ReadPrerelease(core.rest)
      case None => None
      case Some(prerelease) =>
        if prerelease != [] && prerelease[0] == "nightly" then None
        else Some(Stable(core.major, core.minor, core.patch, prerelease))
  }

  /** The part of a nightly tag after the three numbers: `-nightly\.(\d{8})\.(\d+)$` */
  function ReadNightly(core: Core): Option<Nightly> {
    match ReadText(core.rest, "-nightly.")
    case None => None
    case Some(s) =>
      if |s| < 8 || !AllDigits(s[..8]) then None
      else
        match ReadText(s[8..], ".")
        case None => None
        case Some(run) =>
          match ReadNumber(run)
          case None => None
          case Some(number) =>
            if number.1 != [] then None
            else Some(Nightly(core.major, core.minor, core.patch, NatValue(s[..8]), number.0))
  }

  /** `parseNightlyTag`; the legacy format has `nightly-` in front. */
  function ParseNightlyTag(tag: string): Option<Nightly> {
    var s := if "nightly-" <= tag then tag[8..] else tag;
    match ReadCore(s)
    case None => None
    case Some(core) => ReadNightly(core)
  }

  // Printing

  function CoreText(major: nat, minor: nat, patch: nat): string {
    "v" + NatText(major) + "." + NatText(minor) + "." + NatText(patch)
  }

  function JoinDots(ids: seq<string>): string
    requires ids != []
  {
    if |ids| == 1 then ids[0] else ids[0] + "." + JoinDots(ids[1..])
  }

  function StableText(v: Stable): string {
    CoreText(v.major, v.minor, v.patch) + if v.prerelease == [] then "" else "-" + JoinDots(v.prerelease)
  }

  function NightlyText(major: nat, minor: nat, patch: nat, date: string, runNumber: nat): string {
    CoreText(major, minor, patch) + "-nightly." + date + "." + NatText(runNumber)
  }

  predicate IsIdentifier(s: string) {
    forall i | 0 <= i < |s| :: IsIdentifierChar(s[i]) && s[i] != '.'
  }

  /** Identifiers that a prerelease can be printed from: they hold no dot, and the text is not empty. */
  predicate Printable(prerelease: seq<string>) {
    prerelease != [""] && forall k | 0 <= k < |prerelease| :: IsIdentifier(prerelease[k])
  }

  lemma NumberReadsBack(n: nat, rest: string)
    requires rest == [] || !IsDigit(rest[0])
    ensures ReadNumber(NatText(n) + rest) == Some((n, rest))
  {
    hide NatText, NatValue;
    SpanUpTo(IsDigit, NatText(n), rest);
    assert (NatText(n) + rest)[..|NatText(n)|] == NatText(n);
    NatRoundTrip(n);
  }

  lemma TextReadsBack(text: string, rest: string)
    ensures ReadText(text + rest, text) == Some(rest)
  {
    assert (text + rest)[..|text|] == text;
  }

  lemma CoreReadsBack(major: nat, minor: nat, patch: nat, rest: string)
    requires rest == [] || !IsDigit(rest[0])
    ensures ReadCore(CoreText(major, minor, patch) + rest) == Some(Core(major, minor, patch, rest))
  {
    hide ReadNumber, ReadText, NatText;
    var s3 := NatText(patch) + rest;
    var s2 := NatText(minor) + ("." + s3);
    var s1 := NatText(major) + ("." + s2);
    assert CoreText(major, minor, patch) + rest == "v" + s1;
    TextReadsBack("v", s1);
    NumberReadsBack(major, "." + s2);
    TextReadsBack(".", s2);
    NumberReadsBack(minor, "." + s3);
    TextReadsBack(".", s3);
    NumberReadsBack(patch, rest);
  }

  lemma {:induction false} SplitOne(s: string)
    requires '.' !in s
    ensures SplitDots(s) == [s]
  {
    if s != [] {
      SplitOne(s[1..]);
      assert s == [s[0]] + s[1..];
    }
  }

  lemma {:induction false} SplitFirst(a: string, b: string)
    requires '.' !in a
    ensures SplitDots(a + "." + b) == [a] + SplitDots(b)
  {
    var s := a + "." + b;
    if a == [] {
      assert s[1..] == b;
    } else {
      SplitFirst(a[1..], b);
      assert s[1..] == a[1..] + "." + b;
      assert a == [a[0]] + a[1..];
    }
  }

  lemma {:induction false} SplitJoined(ids: seq<string>)
    requires ids != [] && forall k | 0 <= k < |ids| :: IsIdentifier(ids[k])
    ensures SplitDots(JoinDots(ids)) == ids
    ensures forall i | 0 <= i < |JoinDots(ids)| :: IsIdentifierChar(JoinDots(ids)[i])
    ensures JoinDots(ids) == [] ==> ids == [""]
  {
    hide SplitDots;
    assert '.' !in ids[0] by { assert IsIdentifier(ids[0]); }
    if |ids| == 1 {
      SplitOne(ids[0]);
    } else {
      SplitJoined(ids[1..]);
      SplitFirst(ids[0], JoinDots(ids[1..]));
    }
  }

  lemma PrereleaseReadsBack(prerelease: seq<string>)
    requires Printable(prerelease) && prerelease != []
    ensures ReadPrerelease("-" + JoinDots(prerelease)) == Some(prerelease)
  {
    hide SplitDots, JoinDots, Span;
    var s := JoinDots(prerelease);
    SplitJoined(prerelease);
    SpanUpTo(IsIdentifierChar, s, "");
    assert s + "" == s && ("-" + s)[1..] == s && ("-" + s)[1..1 + |s|] == s;
  }

  /** A printed version is read back as it was, except that nightly prereleases are turned away. */
  lemma StableReadsBack(v: Stable)
    requires Printable(v.prerelease)
    ensures ParseStableTag(StableText(v)) ==
      if v.prerelease != [] && v.prerelease[0] == "nightly" then None else Some(v)
  {
    hide CoreText, JoinDots, ReadCore;
    var rest := if v.prerelease == [] then "" else "-" + JoinDots(v.prerelease);
    CoreReadsBack(v.major, v.minor, v.patch, rest);
    if v.prerelease != [] {
      PrereleaseReadsBack(v.prerelease);
    } else {
      assert ReadPrerelease("") == Some([]);
    }
  }

  lemma CoreStartsWithV(major: nat, minor: nat, patch: nat, rest: string)
    ensures !("nightly-" <= CoreText(major, minor, patch) + rest)
  {
    assert (CoreText(major, minor, patch) + rest)[0] == 'v';
  }

  /** Both nightly formats are read back. */
  lemma NightlyReadsBack(major: nat, minor: nat, patch: nat, date: string, runNumber: nat)
    requires |date| == 8 && AllDigits(date)
    ensures var text := NightlyText(major, minor, patch, date, runNumber);
            var v := Nightly(major, minor, patch, NatValue(date), runNumber);
            ParseNightlyTag(text) == Some(v) && ParseNightlyTag("nightly-" + text) == Some(v)
  {
    hide ReadCore, CoreText, NatText, NatValue, ReadNumber;
    var tail := date + ("." + NatText(runNumber));
    var text, rest := NightlyText(major, minor, patch, date, runNumber), "-nightly." + tail;
    assert text == CoreText(major, minor, patch) + rest;
    CoreStartsWithV(major, minor, patch, rest);
    CoreReadsBack(major, minor, patch, rest);
    assert ("nightly-" + text)[8..] == text;
    TextReadsBack("-nightly.", tail);
    assert tail[..8] == date && tail[8..] == "." + NatText(runNumber);
    TextReadsBack(".", NatText(runNumber));
    NumberReadsBack(runNumber, "");
    assert NatText(runNumber) + "" == NatText(runNumber);
  }

  lemma NightlyBody(body: string)
    requires "nightly." <= body
    ensures var n := Span(IsIdentifierChar, body); n > 0 && SplitDots(body[..n])[0] == "nightly"
  {
    hide SplitDots;
    SpanIs(IsIdentifierChar, body);
    var n := Span(IsIdentifierChar, body);
    assert forall i | 0 <= i < 8 :: body[i] == "nightly."[i] && IsIdentifierChar("nightly."[i]);
    assert body[..n] == "nightly" + "." + body[8..n];
    SplitFirst("nightly", body[8..n]);
  }

  lemma NightlyRest(core: Core)
    requires ReadNightly(core).Some?
    ensures var prerelease := ReadPrerelease(core.rest);
            prerelease.Some? ==> prerelease.value != [] && prerelease.value[0] == "nightly"
  {
    hide SplitDots, Span, IsBuild;
    var s := core.rest;
    assert s[..9] == "-nightly.";
    var body := s[1..];
    assert s[0] == '-' && body[..8] == "nightly.";
    NightlyBody(body);
    assert s[1..1 + Span(IsIdentifierChar, body)] == body[..Span(IsIdentifierChar, body)];
  }

  /** No tag is both: a nightly tag is never taken for a stable release, in either format. */
  lemma NightlyIsNotStable(tag: string)
    ensures ParseNightlyTag(tag).Some? ==> ParseStableTag(tag).None?
  {
    hide ReadNightly, ReadPrerelease, ReadNumber;
    if ParseNightlyTag(tag).Some? {
      if "nightly-" <= tag {
        assert tag[0] == 'n';
      } else {
        NightlyRest(ReadCore(tag).value);
      }
    }
  }

  // Resolving

  datatype Candidate<V> = Candidate(tag: string, parsed: V)

  /** The tags that parse and lie below the current version. */
  function Candidates<V>(parse: string -> Option<V>, cmp: (V, V) -> int, current: V, tags: seq<string>): seq<Candidate<V>> {
    if tags == [] then []
    else
      var rest := Candidates(parse, cmp, current, tags[1..]);
      match parse(tags[0])
      case None => rest
      case Some(v) => if cmp(v, current) < 0 then [Candidate(tags[0], v)] + rest else rest
  }

  function Descending<V>(cmp: (V, V) -> int): (Candidate<V>, Candidate<V>) -> int {
    (left: Candidate<V>, right: Candidate<V>) => cmp(right.parsed, left.parsed)
  }

  function Resolve<V>(parse: string -> Option<V>, cmp: (V, V) -> int, currentTag: string, tags: seq<string>): Resolution {
    match parse(currentTag)
    case None => InvalidTag
    case Some(current) =>
      var candidates := Sort(Descending(cmp), Candidates(parse, cmp, current, tags));
      Resolved(if candidates == [] then None else Some(candidates[0].tag))
  }

  /** `resolvePreviousReleaseTag` */
  function ResolvePreviousReleaseTag(collate: (string, string) -> int, channel: Channel, currentTag: string,
                                     tags: seq<string>): Resolution
  {
    match channel
    case StableChannel => Resolve(ParseStableTag, StableOrder(collate), currentTag, tags)
    case NightlyChannel => Resolve(ParseNightlyTag, NightlyOrder(), currentTag, tags)
  }

  /** `tags[k]` parses and lies below the current version. */
  predicate Below<V>(parse: string -> Option<V>, cmp: (V, V) -> int, current: V, tags: seq<string>, k: int) {
    0 <= k < |tags| && parse(tags[k]).Some? && cmp(parse(tags[k]).value, current) < 0
  }

  /** `tags[k]` is the highest of those below the current version, and the first listed of its rank. */
  ghost predicate IsPrevious<V>(parse: string -> Option<V>, cmp: (V, V) -> int, current: V, tags: seq<string>, k: int) {
    && Below(parse, cmp, current, tags, k)
    && (forall j | Below(parse, cmp, current, tags, j) ::
      var order := cmp(parse(tags[j]).value, parse(tags[k]).value);
      order < 0 || (order == 0 && k <= j))
  }

  /** `s[k]` is a least element, and the first listed of its rank. */
  ghost predicate IsFront<T>(cmp: (T, T) -> int, s: seq<T>, k: nat)
    requires k < |s|
  {
    forall i | 0 <= i < |s| :: cmp(s[k], s[i]) < 0 || (cmp(s[k], s[i]) == 0 && k <= i)
  }

  lemma FrontOf<T(!new)>(cmp: (T, T) -> int, s: seq<T>, j: nat)
    requires TotalPreorder(cmp) && j + 1 < |s| && IsFront(cmp, s[1..], j)
    ensures if cmp(s[0], s[j + 1]) <= 0 then IsFront(cmp, s, 0) else IsFront(cmp, s, j + 1)
  {
    var t := s[1..];
    assert t[j] == s[j + 1] && cmp(s[0], s[0]) == 0;
    forall i | 0 < i < |s| ensures cmp(t[j], s[i]) < 0 || (cmp(t[j], s[i]) == 0 && j <= i - 1) {
      assert t[i - 1] == s[i];
    }
  }

  /** The front of a stable sort. */
  lemma {:induction false} SortedFront<T(!new)>(cmp: (T, T) -> int, s: seq<T>) returns (k: nat)
    requires TotalPreorder(cmp) && s != []
    ensures k < |s| && Sort(cmp, s) != [] && Sort(cmp, s)[0] == s[k] && IsFront(cmp, s, k)
  {
    k := 0;
    if |s| > 1 {
      hide IsFront, TotalPreorder;
      var j := SortedFront(cmp, s[1..]);
      FrontOf(cmp, s, j);
      if cmp(s[0], s[j + 1]) > 0 { k := j + 1; }
    } else {
      assert cmp(s[0], s[0]) == 0;
    }
  }

  /** `from` lists, in order, where the candidates come from, and misses none. */
  ghost predicate Tracks<V>(parse: string -> Option<V>, cmp: (V, V) -> int, current: V, tags: seq<string>,
                            c: seq<Candidate<V>>, from: seq<int>)
  {
    && |from| == |c|
    && (forall i | 0 <= i < |c| :: IsFrom(parse, cmp, current, tags, c[i], from[i]))
    && (forall i, j | 0 <= i < j < |c| :: from[i] < from[j])
    && (forall k | Below(parse, cmp, current, tags, k) :: k in from)
  }

  predicate IsFrom<V(==)>(parse: string -> Option<V>, cmp: (V, V) -> int, current: V, tags: seq<string>, c: Candidate<V>, k: int) {
    Below(parse, cmp, current, tags, k) && c == Candidate(tags[k], parse(tags[k]).value)
  }

  lemma BelowShifts<V>(parse: string -> Option<V>, cmp: (V, V) -> int, current: V, tags: seq<string>, k: int)
    requires tags != []
    ensures k > 0 ==> (Below(parse, cmp, current, tags, k) <==> Below(parse, cmp, current, tags[1..], k - 1))
    ensures 0 < k < |tags| ==> tags[1..][k - 1] == tags[k]
  {}

  /** The same for the candidates among `tags[1..]`, as positions in `tags`. */
  ghost predicate TracksRest<V>(parse: string -> Option<V>, cmp: (V, V) -> int, current: V, tags: seq<string>,
                                c: seq<Candidate<V>>, from: seq<int>)
  {
    && |from| == |c|
    && (forall i | 0 <= i < |c| :: from[i] > 0 && IsFrom(parse, cmp, current, tags, c[i], from[i]))
    && (forall i, j | 0 <= i < j < |c| :: from[i] < from[j])
    && (forall k | k > 0 && Below(parse, cmp, current, tags, k) :: k in from)
  }

  lemma TracksCons<V>(parse: string -> Option<V>, cmp: (V, V) -> int, current: V, tags: seq<string>,
                      c: seq<Candidate<V>>, from: seq<int>, first: Candidate<V>)
    requires TracksRest(parse, cmp, current, tags, c, from) && IsFrom(parse, cmp, current, tags, first, 0)
    ensures Tracks(parse, cmp, current, tags, [first] + c, [0] + from)
  {
    hide IsFrom;
    var all, positions := [first] + c, [0] + from;
    forall i | 0 <= i < |all| ensures IsFrom(parse, cmp, current, tags, all[i], positions[i]) {
      if i > 0 { assert all[i] == c[i - 1] && positions[i] == from[i - 1]; }
    }
    forall i, j | 0 <= i < j < |all| ensures positions[i] < positions[j] {
      assert positions[j] == from[j - 1];
    }
    forall k | Below(parse, cmp, current, tags, k) ensures k in positions {
      assert k >= 0;
      if k == 0 { assert positions[0] == 0; }
    }
  }

  lemma TracksShift<V>(parse: string -> Option<V>, cmp: (V, V) -> int, current: V, tags: seq<string>,
                       c: seq<Candidate<V>>, rest: seq<int>) returns (from: seq<int>)
    requires tags != [] && Tracks(parse, cmp, current, tags[1..], c, rest)
    ensures TracksRest(parse, cmp, current, tags, c, from)
  {
    hide Candidates;
    from := seq(|rest|, i requires 0 <= i < |rest| => rest[i] + 1);
    forall i | 0 <= i < |c| ensures IsFrom(parse, cmp, current, tags, c[i], from[i]) && from[i] > 0 {
      assert IsFrom(parse, cmp, current, tags[1..], c[i], rest[i]);
      assert rest[i] >= 0;
      BelowShifts(parse, cmp, current, tags, from[i]);
      assert from[i] < |tags|;
    }
    forall k | k > 0 && Below(parse, cmp, current, tags, k) ensures k in from {
      BelowShifts(parse, cmp, current, tags, k);
      var i :| 0 <= i < |rest| && rest[i] == k - 1;
      assert from[i] == k;
    }
  }

  lemma TracksSkip<V>(parse: string -> Option<V>, cmp: (V, V) -> int, current: V, tags: seq<string>,
                      c: seq<Candidate<V>>, from: seq<int>)
    requires TracksRest(parse, cmp, current, tags, c, from) && !Below(parse, cmp, current, tags, 0)
    ensures Tracks(parse, cmp, current, tags, c, from)
  {
    hide IsFrom;
    forall k | Below(parse, cmp, current, tags, k) ensures k > 0 {
    }
  }

  lemma {:induction false} CandidatesTracked<V>(parse: string -> Option<V>, cmp: (V, V) -> int, current: V, tags: seq<string>)
    returns (from: seq<int>)
    ensures Tracks(parse, cmp, current, tags, Candidates(parse, cmp, current, tags), from)
  {
    hide TracksRest;
    from := [];
    if tags == [] {
    } else {
      var rest := CandidatesTracked(parse, cmp, current, tags[1..]);
      var c := Candidates(parse, cmp, current, tags[1..]);
      from := TracksShift(parse, cmp, current, tags, c, rest);
      if Below(parse, cmp, current, tags, 0) {
        TracksCons(parse, cmp, current, tags, c, from, Candidate(tags[0], parse(tags[0]).value));
        from := [0] + from;
      } else {
        TracksSkip(parse, cmp, current, tags, c, from);
      }
    }
  }

  lemma DescendingIsOrder<V(!new)>(cmp: (V, V) -> int)
    requires TotalPreorder(cmp)
    ensures TotalPreorder(Descending(cmp))
  {
    var d := Descending(cmp);
    assert forall a, b :: d(a, b) == cmp(b.parsed, a.parsed);
  }

  lemma CandidateIsPrevious<V>(parse: string -> Option<V>, cmp: (V, V) -> int, current: V, tags: seq<string>,
                               c: seq<Candidate<V>>, from: seq<int>, best: nat)
    requires Tracks(parse, cmp, current, tags, c, from) && best < |c|
    requires forall i | 0 <= i < |c| ::
               var order := Descending(cmp)(c[best], c[i]); order < 0 || (order == 0 && best <= i)
    ensures IsPrevious(parse, cmp, current, tags, from[best])
  {
    var k := from[best];
    assert IsFrom(parse, cmp, current, tags, c[best], k);
    forall j | Below(parse, cmp, current, tags, j)
      ensures j < |tags| && parse(tags[j]).Some?
      ensures var order := cmp(parse(tags[j]).value, parse(tags[k]).value); order < 0 || (order == 0 && k <= j)
    {
      var i :| 0 <= i < |from| && from[i] == j;
      assert IsFrom(parse, cmp, current, tags, c[i], j);
    }
  }

  /** The resolved tag is the highest of all that parse and lie strictly below the current one, so that
      none lies strictly between; none is resolved exactly when there is none below. */
  lemma ResolvedIsPrevious<V(!new)>(parse: string -> Option<V>, cmp: (V, V) -> int, currentTag: string, tags: seq<string>)
    requires TotalPreorder(cmp) && parse(currentTag).Some?
    ensures var r, current := Resolve(parse, cmp, currentTag, tags), parse(currentTag).value;
            match r
            case InvalidTag => false
            case Resolved(None) => forall k :: !Below(parse, cmp, current, tags, k)
            case Resolved(Some(tag)) => exists k :: IsPrevious(parse, cmp, current, tags, k) && tags[k] == tag
  {
    hide Candidates, Descending, IsPrevious, Sort, TotalPreorder;
    var current := parse(currentTag).value;
    var c := Candidates(parse, cmp, current, tags);
    var from := CandidatesTracked(parse, cmp, current, tags);
    SortPermutes(Descending(cmp), c);
    if c != [] {
      DescendingIsOrder(cmp);
      var best := SortedFront(Descending(cmp), c);
      CandidateIsPrevious(parse, cmp, current, tags, c, from, best);
      assert IsFrom(parse, cmp, current, tags, c[best], from[best]);
      assert tags[from[best]] == c[best].tag;
    }
  }

  /** Both channels: an unreadable current tag is refused, any other is resolved as above. */
  lemma PreviousReleaseTag(collate: (string, string) -> int, currentTag: string, tags: seq<string>)
    requires TotalPreorder(collate)
    ensures var r := ResolvePreviousReleaseTag(collate, StableChannel, currentTag, tags);
            match ParseStableTag(currentTag)
            case None => r == InvalidTag
            case Some(current) =>
              && r.Resolved?
              && (r.tag.None? <==> forall k :: !Below(ParseStableTag, StableOrder(collate), current, tags, k))
              && (r.tag.Some? ==> exists k ::
                IsPrevious(ParseStableTag, StableOrder(collate), current, tags, k) && tags[k] == r.tag.value)
    ensures var r := ResolvePreviousReleaseTag(collate, NightlyChannel, currentTag, tags);
            match ParseNightlyTag(currentTag)
            case None => r == InvalidTag
            case Some(current) =>
              && r.Resolved?
              && (r.tag.None? <==> forall k :: !Below(ParseNightlyTag, NightlyOrder(), current, tags, k))
              && (r.tag.Some? ==> exists k ::
                IsPrevious(ParseNightlyTag, NightlyOrder(), current, tags, k) && tags[k] == r.tag.value)
  {
    hide Below, NightlyOrder, ParseNightlyTag, ParseStableTag, StableOrder, TotalPreorder;
    VersionsAreOrdered(collate);
    if ParseStableTag(currentTag).Some? {
      ResolvedIsPrevious(ParseStableTag, StableOrder(collate), currentTag, tags);
    }
    if ParseNightlyTag(currentTag).Some? {
      ResolvedIsPrevious(ParseNightlyTag, NightlyOrder(), currentTag, tags);
    }
  }
}
