/** Joining the wrapped rows of a terminal buffer and finding a character of the joined text in the
    buffer again (`apps/web/src/terminal-links.ts`). */
module TerminalLinks {
  import opened Text
  import opened Sequences

  /** A row: `full` as it stands, `trimmed` without the blanks at its end. */
  datatype Row = Row(isWrapped: bool, full: string, trimmed: string)

  /** What asking for a row gives; rows may be missing anywhere. */
  type Buffer = seq<Option<Row>>

  /** Rows are numbered from 1. */
  datatype Segment = Segment(row: int, text: string, startIndex: nat, endIndex: nat)

  datatype WrappedLine = WrappedLine(text: string, segments: seq<Segment>)

  datatype Position = Position(x: int, y: int)

  predicate IsRow(buffer: Buffer, n: int) {
    1 <= n <= |buffer| && buffer[n - 1].Some?
  }

  /** Row `n` goes on from the row before it. */
  predicate Continues(buffer: Buffer, n: int) {
    1 < n && IsRow(buffer, n) && buffer[n - 1].value.isWrapped
  }

  /** The first row of a run; none when the run goes on from a row that is missing. */
  function FirstRow(buffer: Buffer, n: int): (f: Option<int>)
    requires IsRow(buffer, n)
    ensures f.Some? ==> 1 <= f.value <= n && IsRow(buffer, f.value)
    decreases n
  {
    if !Continues(buffer, n) then Some(n) else if IsRow(buffer, n - 1) then FirstRow(buffer, n - 1) else None
  }

  function RowText(buffer: Buffer, n: int): string
    requires IsRow(buffer, n)
  {
    if Continues(buffer, n + 1) then buffer[n - 1].value.full else buffer[n - 1].value.trimmed
  }

  /** The segments of the run from row `n` on, when the text before it has `start` characters. */
  function SegmentsFrom(buffer: Buffer, n: int, start: nat): seq<Segment>
    requires IsRow(buffer, n)
    decreases |buffer| - n
  {
    var text := RowText(buffer, n);
    var segment := Segment(n, text, start, start + |text|);
    if Continues(buffer, n + 1) then [segment] + SegmentsFrom(buffer, n + 1, start + |text|) else [segment]
  }

  function JoinTexts(segments: seq<Segment>): string {
    FlatMap((segment: Segment) => segment.text, segments)
  }

  /** What the run that row `n` belongs to joins to. */
  function Wrapped(buffer: Buffer, n: int): Option<WrappedLine> {
    if !IsRow(buffer, n) || FirstRow(buffer, n).None? then None
    else
      var segments := SegmentsFrom(buffer, FirstRow(buffer, n).value, 0);
      Some(WrappedLine(JoinTexts(segments), segments))
  }

  /** `collectWrappedTerminalLinkLine`: back to the first row of the run, then forward over it. */
  method CollectWrappedTerminalLinkLine(buffer: Buffer, bufferLineNumber: int) returns (line: Option<WrappedLine>)
    ensures line == Wrapped(buffer, bufferLineNumber)
  {
    hide FirstRow, JoinTexts, SegmentsFrom;
    if !IsRow(buffer, bufferLineNumber) {
      return None;
    }
    var start := bufferLineNumber;
    while start > 1 && buffer[start - 1].value.isWrapped
      invariant 1 <= start <= bufferLineNumber && IsRow(buffer, start)
      invariant FirstRow(buffer, bufferLineNumber) == FirstRow(buffer, start)
    {
      FirstRowStep(buffer, start);
      if !IsRow(buffer, start - 1) {
        return None;
      }
      start := start - 1;
    }
    FirstRowStep(buffer, start);
    var segments: seq<Segment> := [];
    var nextStartIndex: nat := 0;
    var current := start;
    ghost var all := SegmentsFrom(buffer, start, 0);
    while true
      invariant start <= current <= |buffer| && IsRow(buffer, current)
      invariant segments + SegmentsFrom(buffer, current, nextStartIndex) == all
      decreases |buffer| - current
    {
      var row := buffer[current - 1].value;
      var hasWrappedContinuation := IsRow(buffer, current + 1) && buffer[current].value.isWrapped;
      var text := if hasWrappedContinuation then row.full else row.trimmed;
      SegmentsStep(buffer, current, nextStartIndex, segments);
      segments := segments + [Segment(current, text, nextStartIndex, nextStartIndex + |text|)];
      nextStartIndex := nextStartIndex + |text|;
      if !hasWrappedContinuation {
        break;
      }
      current := current + 1;
    }
    line := Some(WrappedLine(JoinTexts(segments), segments));
  }

  lemma FirstRowStep(buffer: Buffer, n: int)
    requires IsRow(buffer, n)
    ensures FirstRow(buffer, n) ==
            if n > 1 && buffer[n - 1].value.isWrapped then if IsRow(buffer, n - 1) then FirstRow(buffer, n - 1) else None
            else Some(n)
  {}

  /** One row moves from what is still to come to what is collected. */
  lemma SegmentsStep(buffer: Buffer, n: int, start: nat, before: seq<Segment>)
    requires IsRow(buffer, n)
    ensures var wrapped := IsRow(buffer, n + 1) && buffer[n].value.isWrapped;
            var text := if wrapped then buffer[n - 1].value.full else buffer[n - 1].value.trimmed;
            var segment := Segment(n, text, start, start + |text|);
            before + SegmentsFrom(buffer, n, start) ==
              if wrapped then before + [segment] + SegmentsFrom(buffer, n + 1, start + |text|) else before + [segment]
  {
    var text := RowText(buffer, n);
    if Continues(buffer, n + 1) {
      Associative(before, [Segment(n, text, start, start + |text|)], SegmentsFrom(buffer, n + 1, start + |text|));
    }
  }

  // One run

  /** Every row after `a` up to `b` goes on from the one before it. */
  ghost predicate SameRun(buffer: Buffer, a: int, b: int) {
    IsRow(buffer, a) && IsRow(buffer, b) && forall n | a < n <= b || b < n <= a :: Continues(buffer, n)
  }

  /** The run of row `n` up to `n` goes back to row `k`. */
  ghost predicate RunsBackTo(buffer: Buffer, n: int, k: int) {
    k <= n && forall j | k < j <= n :: Continues(buffer, j)
  }

  lemma {:induction false} FirstOfRun(buffer: Buffer, n: int)
    requires IsRow(buffer, n)
    ensures FirstRow(buffer, n).Some? ==>
              !Continues(buffer, FirstRow(buffer, n).value) && RunsBackTo(buffer, n, FirstRow(buffer, n).value)
    ensures FirstRow(buffer, n).None? ==> exists k :: 1 <= k && !IsRow(buffer, k) && RunsBackTo(buffer, n, k)
    decreases n
  {
    if Continues(buffer, n) {
      if IsRow(buffer, n - 1) {
        FirstOfRun(buffer, n - 1);
        if FirstRow(buffer, n - 1).None? {
          var k :| 1 <= k && !IsRow(buffer, k) && RunsBackTo(buffer, n - 1, k);
          assert RunsBackTo(buffer, n, k);
        }
      } else {
        assert RunsBackTo(buffer, n, n - 1);
      }
    }
  }

  /** A row that is there has no joined line exactly when its run goes back to a row that is missing. */
  lemma NoLineExactlyWhenCut(buffer: Buffer, n: int)
    requires 1 <= n <= |buffer| && buffer[n - 1].Some?
    ensures Wrapped(buffer, n).None? <==>
      exists k :: 1 <= k <= |buffer| && buffer[k - 1].None? && RunsBackTo(buffer, n, k)
  {
    hide SegmentsFrom, JoinTexts, Continues, FirstRow;
    FirstOfRun(buffer, n);
    if k :| 1 <= k && !IsRow(buffer, k) && RunsBackTo(buffer, n, k) {
      CutHasNoFirst(buffer, n, k);
    }
  }

  lemma {:induction false} CutHasNoFirst(buffer: Buffer, n: int, k: int)
    requires IsRow(buffer, n) && 1 <= k && !IsRow(buffer, k) && RunsBackTo(buffer, n, k)
    ensures FirstRow(buffer, n).None?
    decreases n
  {
    assert Continues(buffer, n);
    if IsRow(buffer, n - 1) { CutHasNoFirst(buffer, n - 1, k); }
  }

  lemma SegmentsStart(buffer: Buffer, n: int)
    requires IsRow(buffer, n)
    ensures SegmentsFrom(buffer, n, 0) != [] && SegmentsFrom(buffer, n, 0)[0].row == n
  {}

  lemma {:induction false} FirstAlongRun(buffer: Buffer, a: int, b: int)
    requires SameRun(buffer, a, b) && a <= b
    ensures FirstRow(buffer, a) == FirstRow(buffer, b)
    decreases b
  {
    if a < b {
      assert Continues(buffer, b);
      assert b - 1 > a ==> Continues(buffer, b - 1);
      FirstAlongRun(buffer, a, b - 1);
    }
  }

  lemma SameFirst(buffer: Buffer, a: int, b: int)
    requires IsRow(buffer, a) && IsRow(buffer, b) && a <= b
    ensures FirstRow(buffer, a).Some? && FirstRow(buffer, a) == FirstRow(buffer, b) <==>
            FirstRow(buffer, a).Some? && SameRun(buffer, a, b)
    ensures SameRun(buffer, a, b) ==> FirstRow(buffer, a) == FirstRow(buffer, b)
    ensures SameRun(buffer, a, b) <==> SameRun(buffer, b, a)
  {
    hide FirstRow, Continues;
    FirstOfRun(buffer, a);
    FirstOfRun(buffer, b);
    if SameRun(buffer, a, b) { FirstAlongRun(buffer, a, b); }
  }

  /** Two rows give the same joined line exactly when they are rows of one run that has one. */
  lemma AnyRowOfTheRun(buffer: Buffer, a: int, b: int)
    requires IsRow(buffer, a) && IsRow(buffer, b)
    ensures Wrapped(buffer, a).Some? && Wrapped(buffer, a) == Wrapped(buffer, b) <==>
            Wrapped(buffer, a).Some? && SameRun(buffer, a, b)
  {
    hide SegmentsFrom, JoinTexts, Continues, FirstRow;
    if a <= b { SameFirst(buffer, a, b); } else { SameFirst(buffer, b, a); }
    if FirstRow(buffer, a).Some? { SegmentsStart(buffer, FirstRow(buffer, a).value); }
    if FirstRow(buffer, b).Some? { SegmentsStart(buffer, FirstRow(buffer, b).value); }
  }

  /** The segments of a joined line: one for each row from the first of the run on, each with the text
      that follows on the text before it, in full where the next row goes on and else without the blanks
      at its end. */
  lemma SegmentsAre(buffer: Buffer, n: int, k: nat)
    requires Wrapped(buffer, n).Some? && k < |Wrapped(buffer, n).value.segments|
    ensures var segments := Wrapped(buffer, n).value.segments; var segment := segments[k];
      && FirstRow(buffer, n) == Some(segment.row - k) && IsRow(buffer, segment.row)
      && segment.text == (if k + 1 < |segments| then buffer[segment.row - 1].value.full else buffer[segment.row - 1].value.trimmed)
      && segment.startIndex == (if k == 0 then 0 else segments[k - 1].endIndex)
      && segment.endIndex == segment.startIndex + |segment.text|
      && (k + 1 < |segments| <==> IsRow(buffer, segment.row + 1) && buffer[segment.row].value.isWrapped)
  {
    hide JoinTexts, Continues;
    SegmentsRun(buffer, FirstRow(buffer, n).value, 0, k);
  }

  lemma {:induction false} SegmentsRun(buffer: Buffer, n: int, start: nat, k: nat)
    requires IsRow(buffer, n) && k < |SegmentsFrom(buffer, n, start)|
    ensures var segments := SegmentsFrom(buffer, n, start); var segment := segments[k];
      && segment.row == n + k && IsRow(buffer, n + k)
      && segment.text == (if k + 1 < |segments| then buffer[n + k - 1].value.full else buffer[n + k - 1].value.trimmed)
      && segment.startIndex == (if k == 0 then start else segments[k - 1].endIndex)
      && segment.endIndex == segment.startIndex + |segment.text|
      && (k + 1 < |segments| <==> IsRow(buffer, n + k + 1) && buffer[n + k].value.isWrapped)
    decreases |buffer| - n
  {
    if k > 0 {
      var text := RowText(buffer, n);
      SegmentsRun(buffer, n + 1, start + |text|, k - 1);
      assert SegmentsFrom(buffer, n, start)[1..] == SegmentsFrom(buffer, n + 1, start + |text|);
    }
  }

  // Back into the buffer

  /** `resolveCharacterPosition` */
  method ResolveCharacterPosition(segments: seq<Segment>, characterIndex: int) returns (p: Position)
    ensures p == PositionOf(segments, characterIndex)
  {
    var k := 0;
    assert segments[0..] == segments;
    while k < |segments|
      invariant 0 <= k <= |segments|
      invariant PositionIn(segments[k..], characterIndex).Some? ==>
          PositionIn(segments, characterIndex) == PositionIn(segments[k..], characterIndex)
      invariant PositionIn(segments[k..], characterIndex).None? ==> PositionIn(segments, characterIndex).None?
    {
      var segment := segments[k];
      assert segments[k..][1..] == segments[k + 1..];
      if characterIndex < segment.endIndex {
        return Position(characterIndex - segment.startIndex + 1, segment.row);
      }
      k := k + 1;
    }
    if segments == [] {
      return Position(1, 1);
    }
    var last := segments[|segments| - 1];
    return Position(if |last.text| > 1 then |last.text| else 1, last.row);
  }

  function PositionIn(segments: seq<Segment>, index: int): Option<Position> {
    if segments == [] then None
    else if index < segments[0].endIndex then Some(Position(index - segments[0].startIndex + 1, segments[0].row))
    else PositionIn(segments[1..], index)
  }

  function PositionOf(segments: seq<Segment>, index: int): Position {
    match PositionIn(segments, index)
    case Some(p) => p
    case None =>
      if segments == [] then Position(1, 1)
      else
        var last := segments[|segments| - 1];
        Position(if |last.text| > 1 then |last.text| else 1, last.row)
  }

  lemma {:induction false} PositionInRun(buffer: Buffer, n: int, start: nat, index: int)
    requires IsRow(buffer, n)
    requires var text := JoinTexts(SegmentsFrom(buffer, n, start)); start <= index < start + |text|
    ensures var segments := SegmentsFrom(buffer, n, start);
            var p := PositionIn(segments, index);
            && p.Some? && IsRow(buffer, p.value.y) && p.value.y >= n
            && 1 <= p.value.x <= |RowText(buffer, p.value.y)|
            && RowText(buffer, p.value.y)[p.value.x - 1] == JoinTexts(segments)[index - start]
    decreases |buffer| - n
  {
    hide RowText;
    var segments := SegmentsFrom(buffer, n, start);
    var text := RowText(buffer, n);
    assert JoinTexts(segments) == text + JoinTexts(segments[1..]);
    if index >= start + |text| {
      assert JoinTexts([]) == [];
      PositionInRun(buffer, n + 1, start + |text|, index);
      assert segments[1..] == SegmentsFrom(buffer, n + 1, start + |text|);
    }
  }

  /** Every character of a joined line is found in the row it came from, at its column. */
  lemma CharacterIsFound(buffer: Buffer, n: int, index: nat)
    requires Wrapped(buffer, n).Some? && index < |Wrapped(buffer, n).value.text|
    ensures var line := Wrapped(buffer, n).value;
            var p := PositionOf(line.segments, index);
            && IsRow(buffer, p.y) && 1 <= p.x <= |RowText(buffer, p.y)|
            && RowText(buffer, p.y)[p.x - 1] == line.text[index]
  {
    hide SegmentsFrom, JoinTexts, RowText;
    PositionInRun(buffer, FirstRow(buffer, n).value, 0, index);
  }

  /** A position past the end of the joined line is that of its last character, or of the first column
      where its last row is empty. */
  lemma PastTheEnd(buffer: Buffer, n: int, index: int)
    requires Wrapped(buffer, n).Some? && index >= |Wrapped(buffer, n).value.text|
    ensures PositionOf([], index) == Position(1, 1)
    ensures var segments := Wrapped(buffer, n).value.segments;
      && segments != []
      && var last := segments[|segments| - 1];
         PositionOf(segments, index) == Position(if last.text == "" then 1 else |last.text|, last.row)
  {
    hide SegmentsFrom, JoinTexts;
    var f := FirstRow(buffer, n).value;
    SegmentsStart(buffer, f);
    NoneReachesPast(buffer, f, 0, index);
  }

  lemma {:induction false} NoneReachesPast(buffer: Buffer, n: int, start: nat, index: int)
    requires IsRow(buffer, n) && index >= start + |JoinTexts(SegmentsFrom(buffer, n, start))|
    ensures PositionIn(SegmentsFrom(buffer, n, start), index).None?
    decreases |buffer| - n
  {
    hide RowText;
    var segments := SegmentsFrom(buffer, n, start);
    var text := RowText(buffer, n);
    assert JoinTexts(segments) == text + JoinTexts(segments[1..]);
    if Continues(buffer, n + 1) {
      assert segments[1..] == SegmentsFrom(buffer, n + 1, start + |text|);
      NoneReachesPast(buffer, n + 1, start + |text|, index);
    } else {
      assert segments[1..] == [];
    }
  }
}
